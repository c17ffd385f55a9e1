/** One dense layer evaluated for a single sample, and its adjoint (warp/native/matnn.h,
    `mlp`, `adj_mlp`). The weights are an m x n row-major tensor, the input x and the output
    are row-major tensors with b columns, and the sample is column `index` of each. The
    activation and its adjoint are caller-supplied functions. */
module Layer {
  import opened DenseIndexing
  import opened Gemm

  /** weights[i*n + j]. */
  function Weight(W: seq<real>, m: nat, n: nat, i: nat, j: nat): real
    requires i < m && j < n && m * n <= |W|
  {
    RowMajorInRange(n, m, i, j);
    W[DenseIndexStride(n, i, j)]
  }

  /** x[index + b*j]: entry j of the sample, in column `index` of the n x b input. */
  function Input(X: seq<real>, n: nat, b: nat, index: nat, j: nat): real
    requires index < b && j < n && n * b <= |X|
  {
    RowMajorInRange(b, n, j, index);
    X[DenseIndexStride(b, j, index)]
  }

  /** The source addresses row j of column `index` as index + b*j. */
  lemma ColumnOffset(b: nat, index: nat, j: nat)
    requires index < b
    ensures index + b * j == DenseIndexStride(b, j, index)
    ensures (index + b * j) / b == j && (index + b * j) % b == index
  {
    RowMajorDivMod(b, j, index);
  }

  /** A position in a b-column tensor splits back into its row q / b and column q % b. */
  lemma ColumnOf(q: int, b: nat)
    requires 0 <= q && b > 0
    ensures q == (q % b) + b * (q / b)
  {
  }

  /** The layer's buffers: weights m x n, bias m, input n x b, the sample a column of it. */
  predicate LayerFits(m: nat, n: nat, wLen: nat, biasLen: nat, index: nat, b: nat, xLen: nat)
  {
    m * n <= wLen && m <= biasLen && index < b && n * b <= xLen
  }

  /** bias[i] plus the first k terms of row i of the weights against the sample. */
  function PreSum(W: seq<real>, m: nat, n: nat, bias: seq<real>, X: seq<real>, b: nat, index: nat, i: nat, k: nat): real
    requires LayerFits(m, n, |W|, |bias|, index, b, |X|) && i < m && k <= n
    decreases k
  {
    if k == 0 then bias[i]
    else PreSum(W, m, n, bias, X, b, index, i, k - 1) + Weight(W, m, n, i, k - 1) * Input(X, n, b, index, k - 1)
  }

  /** Position q is one of the first `rows` entries of column `index` of a b-column tensor. */
  predicate InColumn(q: int, index: nat, b: nat, rows: nat)
    requires b > 0
  {
    0 <= q && q % b == index && q / b < rows
  }

  /** The output buffer after the first `rows` rows of the layer. */
  function MlpAt(out0: seq<real>, W: seq<real>, m: nat, n: nat, bias: seq<real>, act: real -> real,
                 index: nat, X: seq<real>, b: nat, rows: nat, q: nat): real
    requires LayerFits(m, n, |W|, |bias|, index, b, |X|) && rows <= m && q < |out0|
  {
    if InColumn(q, index, b, rows) then act(PreSum(W, m, n, bias, X, b, index, q / b, n)) else out0[q]
  }

  function MlpResult(out0: seq<real>, W: seq<real>, m: nat, n: nat, bias: seq<real>, act: real -> real,
                     index: nat, X: seq<real>, b: nat): seq<real>
    requires LayerFits(m, n, |W|, |bias|, index, b, |X|)
  {
    seq(|out0|, q requires 0 <= q < |out0| => MlpAt(out0, W, m, n, bias, act, index, X, b, m, q))
  }

  /** The inner loop of `mlp` and of `adj_mlp`: the pre-activation of output row i. */
  method PreActivation(W: array<real>, m: nat, n: nat, bias: array<real>, index: nat, X: array<real>, b: nat, i: nat)
    returns (tmp: real)
    requires LayerFits(m, n, W.Length, bias.Length, index, b, X.Length) && i < m
    ensures tmp == PreSum(W[..], m, n, bias[..], X[..], b, index, i, n)
  {
    tmp := bias[i];
    for j := 0 to n
      invariant tmp == PreSum(W[..], m, n, bias[..], X[..], b, index, i, j)
    {
      RowMajorInRange(n, m, i, j);
      RowMajorInRange(b, n, j, index);
      ColumnOffset(b, index, j);
      tmp := tmp + W[i * n + j] * X[index + b * j];
    }
  }

  /** Writing row r of the column extends the written prefix by exactly that position. */
  lemma MlpStep(out: seq<real>, out0: seq<real>, W: seq<real>, m: nat, n: nat, bias: seq<real>, act: real -> real,
                index: nat, X: seq<real>, b: nat, r: nat)
    requires LayerFits(m, n, |W|, |bias|, index, b, |X|) && r < m && |out| == |out0|
    requires index + b * r < |out|
    requires forall q :: 0 <= q < |out| ==> out[q] == MlpAt(out0, W, m, n, bias, act, index, X, b, r, q)
    ensures var out' := out[index + b * r := act(PreSum(W, m, n, bias, X, b, index, r, n))];
      forall q :: 0 <= q < |out'| ==> out'[q] == MlpAt(out0, W, m, n, bias, act, index, X, b, r + 1, q)
  {
    ColumnOffset(b, index, r);
    var q0 := index + b * r;
    var out' := out[q0 := act(PreSum(W, m, n, bias, X, b, index, r, n))];
    forall q | 0 <= q < |out'|
      ensures out'[q] == MlpAt(out0, W, m, n, bias, act, index, X, b, r + 1, q)
    {
      if q != q0 {
        if InColumn(q, index, b, r + 1) && q / b == r {
          ColumnOf(q, b);
          assert false;
        }
        assert out'[q] == out[q];
      }
    }
  }

  /** `mlp`: for each output row i, out[index + b*i] = activation(bias[i] + row i of weights
      times the sample); nothing else in out is written. */
  method Mlp(W: array<real>, m: nat, n: nat, bias: array<real>, act: real -> real, index: nat,
             X: array<real>, b: nat, out: array<real>)
    requires LayerFits(m, n, W.Length, bias.Length, index, b, X.Length) && m * b <= out.Length
    requires out != W && out != bias && out != X
    modifies out
    ensures out[..] == MlpResult(old(out[..]), W[..], m, n, bias[..], act, index, X[..], b)
  {
    ghost var out0 := out[..];
    for i := 0 to m
      invariant forall q :: 0 <= q < out.Length ==> out[q] == MlpAt(out0, W[..], m, n, bias[..], act, index, X[..], b, i, q)
    {
      var tmp := PreActivation(W, m, n, bias, index, X, b, i);
      RowMajorInRange(b, m, i, index);
      ColumnOffset(b, index, i);
      ghost var ob := out[..];
      MlpStep(ob, out0, W[..], m, n, bias[..], act, index, X[..], b, i);
      out[index + b * i] := act(tmp);
      assert out[..] == ob[index + b * i := act(tmp)];
    }
  }

  /** Entry i of the sample's output column is activation(bias[i] + (W x)[i][index]), the
      pre-activation being entry (i, index) of the plain multiply W x; the rest of the buffer
      keeps its contents. */
  lemma MlpColumn(out0: seq<real>, W: seq<real>, m: nat, n: nat, bias: seq<real>, act: real -> real,
                  index: nat, X: seq<real>, b: nat)
    requires LayerFits(m, n, |W|, |bias|, index, b, |X|) && m * b <= |out0|
    ensures GemmFits(m, b, n, |W|, 0, |X|, 0, m * b, 0)
    ensures forall i :: 0 <= i < m ==>
      index + b * i < |out0|
      && MlpResult(out0, W, m, n, bias, act, index, X, b)[index + b * i]
         == act(bias[i] + GemmSum(false, false, m, b, n, W, 0, X, 0, i, index, n))
    ensures forall q :: 0 <= q < |out0| && !InColumn(q, index, b, m) ==> MlpResult(out0, W, m, n, bias, act, index, X, b)[q] == out0[q]
  {
    forall i | 0 <= i < m
      ensures index + b * i < |out0|
      ensures MlpResult(out0, W, m, n, bias, act, index, X, b)[index + b * i]
           == act(bias[i] + GemmSum(false, false, m, b, n, W, 0, X, 0, i, index, n))
    {
      RowMajorInRange(b, m, i, index);
      ColumnOffset(b, index, i);
      PreSumIsGemm(W, m, n, bias, X, b, index, i, n);
    }
  }

  /** The pre-activation is the bias plus the (i, index) entry of W times x. */
  lemma {:induction false} PreSumIsGemm(W: seq<real>, m: nat, n: nat, bias: seq<real>, X: seq<real>, b: nat,
                                        index: nat, i: nat, k: nat)
    requires LayerFits(m, n, |W|, |bias|, index, b, |X|) && i < m && k <= n
    ensures GemmFits(m, b, n, |W|, 0, |X|, 0, m * b, 0)
    ensures PreSum(W, m, n, bias, X, b, index, i, k) == bias[i] + GemmSum(false, false, m, b, n, W, 0, X, 0, i, index, k)
  {
    if k > 0 {
      PreSumIsGemm(W, m, n, bias, X, b, index, i, k - 1);
      assert Operand(false, m, n, W, 0, i, k - 1) == Weight(W, m, n, i, k - 1);
      assert Operand(false, n, b, X, 0, k - 1, index) == Input(X, n, b, index, k - 1);
    }
  }

  // ---------------------------------------------------------------------------------------------
  // Adjoint

  /** The contents of an optional buffer (an absent one reads as empty). */
  function Contents(a: array?<real>): seq<real>
    reads a
  {
    if a == null then [] else a[..]
  }

  /** adj_f for row i: the activation's adjoint at the recomputed pre-activation, seeded with
      0 and driven by adj_out[index + b*i]; 0 when there is no output gradient. */
  function AdjF(W: seq<real>, m: nat, n: nat, bias: seq<real>, X: seq<real>, b: nat, index: nat,
                adjAct: (real, real, real) -> real, hasAdjOut: bool, adjOut: seq<real>, i: nat): real
    requires LayerFits(m, n, |W|, |bias|, index, b, |X|) && i < m
    requires hasAdjOut ==> m * b <= |adjOut|
  {
    if hasAdjOut then
      RowMajorInRange(b, m, i, index);
      ColumnOffset(b, index, i);
      adjAct(PreSum(W, m, n, bias, X, b, index, i, n), 0.0, adjOut[index + b * i])
    else 0.0
  }

  /** adj_f of every row. */
  function AdjFs(W: seq<real>, m: nat, n: nat, bias: seq<real>, X: seq<real>, b: nat, index: nat,
                 adjAct: (real, real, real) -> real, hasAdjOut: bool, adjOut: seq<real>): (g: seq<real>)
    requires LayerFits(m, n, |W|, |bias|, index, b, |X|)
    requires hasAdjOut ==> m * b <= |adjOut|
    ensures |g| == m
  {
    seq(m, i requires 0 <= i < m => AdjF(W, m, n, bias, X, b, index, adjAct, hasAdjOut, adjOut, i))
  }

  /** The sample as a vector of length n. */
  function Sample(X: seq<real>, n: nat, b: nat, index: nat): (v: seq<real>)
    requires index < b && n * b <= |X|
    ensures |v| == n
  {
    seq(n, j requires 0 <= j < n => Input(X, n, b, index, j))
  }

  /** adj_weights after the first `rows` rows: entry (i, j) has gained x[j] * g[i]. */
  function WeightGradAt(W0: seq<real>, m: nat, n: nat, g: seq<real>, v: seq<real>, q: nat): real
    requires m * n <= |W0| && |g| == m && |v| == n && q < |W0|
  {
    if q < m * n then
      BlockCoordinates(m, n, q);
      W0[q] + v[q % n] * g[q / n]
    else W0[q]
  }

  function WeightGrad(W0: seq<real>, m: nat, n: nat, g: seq<real>, v: seq<real>): seq<real>
    requires m * n <= |W0| && |g| == m && |v| == n
  {
    seq(|W0|, q requires 0 <= q < |W0| => WeightGradAt(W0, m, n, g, v, q))
  }

  /** Sum over i < k of weights[i*n + j] * g[i]: entry j of W^T g over the first k rows. */
  function TransposedSum(W: seq<real>, m: nat, n: nat, g: seq<real>, j: nat, k: nat): real
    requires m * n <= |W| && |g| == m && j < n && k <= m
    decreases k
  {
    if k == 0 then 0.0 else TransposedSum(W, m, n, g, j, k - 1) + Weight(W, m, n, k - 1, j) * g[k - 1]
  }

  /** adj_x after the first `rows` rows: entry j of the sample's column has gained
      the sum over those rows of weights[i*n + j] * g[i]. */
  function InputGradAt(X0: seq<real>, W: seq<real>, m: nat, n: nat, g: seq<real>, index: nat, b: nat, rows: nat, q: nat): real
    requires m * n <= |W| && |g| == m && index < b && rows <= m && q < |X0|
  {
    if InColumn(q, index, b, n) then X0[q] + TransposedSum(W, m, n, g, q / b, rows) else X0[q]
  }

  function InputGrad(X0: seq<real>, W: seq<real>, m: nat, n: nat, g: seq<real>, index: nat, b: nat): seq<real>
    requires m * n <= |W| && |g| == m && index < b
  {
    seq(|X0|, q requires 0 <= q < |X0| => InputGradAt(X0, W, m, n, g, index, b, m, q))
  }

  /** adj_bias after the first `rows` rows: entry i has gained g[i]. */
  function BiasGrad(B0: seq<real>, g: seq<real>, rows: nat): (r: seq<real>)
    requires rows <= |g| && rows <= |B0|
    ensures |r| == |B0|
  {
    seq(|B0|, i requires 0 <= i < |B0| => if i < rows then B0[i] + g[i] else B0[i])
  }

  /** The column entry for row j of adj_x, given rows before j of this pass are done. */
  function RowPassAt(X0: seq<real>, W: seq<real>, m: nat, n: nat, index: nat, b: nat, i: nat, adjF: real, rows: nat, q: nat): real
    requires m * n <= |W| && index < b && i < m && rows <= n && q < |X0|
  {
    if InColumn(q, index, b, rows) then X0[q] + Weight(W, m, n, i, q / b) * adjF else X0[q]
  }

  /** Adding row i's contribution at column position j extends the pass by that position. */
  function RowPass(X0: seq<real>, W: seq<real>, m: nat, n: nat, index: nat, b: nat, i: nat, adjF: real, rows: nat): seq<real>
    requires m * n <= |W| && index < b && i < m && rows <= n
  {
    seq(|X0|, q requires 0 <= q < |X0| => RowPassAt(X0, W, m, n, index, b, i, adjF, rows, q))
  }

  lemma RowPassStep(Xb: seq<real>, X0: seq<real>, W: seq<real>, m: nat, n: nat, index: nat, b: nat, i: nat,
                    adjF: real, j: nat)
    requires m * n <= |W| && index < b && i < m && j < n && index + b * j < |X0|
    requires Xb == RowPass(X0, W, m, n, index, b, i, adjF, j)
    ensures index + b * j < |Xb|
    ensures Xb[index + b * j := Xb[index + b * j] + Weight(W, m, n, i, j) * adjF] == RowPass(X0, W, m, n, index, b, i, adjF, j + 1)
  {
    ColumnOffset(b, index, j);
    var q0 := index + b * j;
    var Xn := Xb[q0 := Xb[q0] + Weight(W, m, n, i, j) * adjF];
    forall q | 0 <= q < |Xn|
      ensures Xn[q] == RowPassAt(X0, W, m, n, index, b, i, adjF, j + 1, q)
    {
      if q != q0 {
        if InColumn(q, index, b, j + 1) && q / b == j {
          ColumnOf(q, b);
          assert false;
        }
        assert Xn[q] == Xb[q];
      } else {
        assert !InColumn(q, index, b, j);
      }
    }
  }

  /** The weights' gradient entry after the first `cols` columns of row i. */
  function RowWeightAt(W0: seq<real>, X: seq<real>, n: nat, b: nat, index: nat, i: nat, adjF: real, cols: nat, q: nat): real
    requires index < b && n * b <= |X| && cols <= n && q < |W0|
  {
    if i * n <= q < i * n + cols then W0[q] + Input(X, n, b, index, q - i * n) * adjF else W0[q]
  }

  function RowWeight(W0: seq<real>, X: seq<real>, n: nat, b: nat, index: nat, i: nat, adjF: real, cols: nat): seq<real>
    requires index < b && n * b <= |X| && cols <= n
  {
    seq(|W0|, q requires 0 <= q < |W0| => RowWeightAt(W0, X, n, b, index, i, adjF, cols, q))
  }

  lemma RowWeightStep(Wb: seq<real>, W0: seq<real>, X: seq<real>, n: nat, b: nat, index: nat, i: nat, adjF: real, j: nat)
    requires index < b && n * b <= |X| && j < n && i * n + j < |W0|
    requires Wb == RowWeight(W0, X, n, b, index, i, adjF, j)
    ensures i * n + j < |Wb|
    ensures Wb[i * n + j := Wb[i * n + j] + Input(X, n, b, index, j) * adjF] == RowWeight(W0, X, n, b, index, i, adjF, j + 1)
  {
    var Wn := Wb[i * n + j := Wb[i * n + j] + Input(X, n, b, index, j) * adjF];
    forall q | 0 <= q < |Wn|
      ensures Wn[q] == RowWeightAt(W0, X, n, b, index, i, adjF, j + 1, q)
    {
    }
  }

  /** `atomic_add`: a[q] += v as one indivisible step. */
  method AtomicAdd(a: array<real>, q: nat, v: real)
    requires q < a.Length
    modifies a
    ensures a[..] == old(a[..])[q := old(a[q]) + v]
  {
    a[q] := a[q] + v;
  }

  /** One row of `adj_mlp`: with adj_f = adjF, adds x[j] * adjF to adj_weights[i*n + j] and
      weights[i*n + j] * adjF to adj_x[index + b*j] for every j, then adjF to adj_bias[i],
      each only when that buffer is present. */
  method AdjMlpRow(W: array<real>, m: nat, n: nat, index: nat, X: array<real>, b: nat, i: nat, adjF: real,
                   adjW: array?<real>, adjBias: array?<real>, adjX: array?<real>)
    requires m * n <= W.Length && index < b && n * b <= X.Length && i < m
    requires adjW != null ==> m * n <= adjW.Length && adjW != W && adjW != X && adjW != adjBias && adjW != adjX
    requires adjBias != null ==> m <= adjBias.Length && adjBias != W && adjBias != X && adjBias != adjX
    requires adjX != null ==> n * b <= adjX.Length && adjX != W && adjX != X
    modifies adjW, adjBias, adjX
    ensures adjW != null ==> adjW[..] == RowWeight(old(adjW[..]), X[..], n, b, index, i, adjF, n)
    ensures adjX != null ==> adjX[..] == RowPass(old(adjX[..]), W[..], m, n, index, b, i, adjF, n)
    ensures adjBias != null ==> adjBias[..] == old(adjBias[..])[i := old(adjBias[i]) + adjF]
  {
    ghost var X0 := if adjX == null then [] else adjX[..];
    ghost var W0 := if adjW == null then [] else adjW[..];
    for j := 0 to n
      invariant adjW != null ==> adjW[..] == RowWeight(W0, X[..], n, b, index, i, adjF, j)
      invariant adjX != null ==> adjX[..] == RowPass(X0, W[..], m, n, index, b, i, adjF, j)
      invariant adjBias != null ==> adjBias[..] == old(adjBias[..])
    {
      if adjW != null {
        AddWeightGrad(m, n, index, X, b, i, j, adjF, adjW, W0);
      }
      if adjX != null {
        AddInputGrad(W, m, n, index, b, i, j, adjF, adjX, X0);
      }
    }
    if adjBias != null {
      AtomicAdd(adjBias, i, adjF);
    }
  }

  /** The body of the inner loop of `adj_mlp` for adj_weights:
      atomic_add(&adj_weights[i*n + j], x[index + b*j] * adj_f). */
  method AddWeightGrad(m: nat, n: nat, index: nat, X: array<real>, b: nat, i: nat, j: nat, adjF: real,
                       adjW: array<real>, ghost W0: seq<real>)
    requires index < b && n * b <= X.Length && i < m && j < n && m * n <= adjW.Length && adjW != X
    requires adjW[..] == RowWeight(W0, X[..], n, b, index, i, adjF, j)
    modifies adjW
    ensures adjW[..] == RowWeight(W0, X[..], n, b, index, i, adjF, j + 1)
  {
    RowMajorInRange(n, m, i, j);
    RowMajorInRange(b, n, j, index);
    ColumnOffset(b, index, j);
    ghost var Wb, Xs := adjW[..], X[..];
    RowWeightStep(Wb, W0, Xs, n, b, index, i, adjF, j);
    ghost var d := X[index + b * j] * adjF;
    assert d == Input(Xs, n, b, index, j) * adjF;
    AtomicAdd(adjW, i * n + j, X[index + b * j] * adjF);
    assert adjW[..] == Wb[i * n + j := Wb[i * n + j] + d];
    assert X[..] == Xs;
  }

  /** The body of the inner loop of `adj_mlp` for adj_x:
      atomic_add(&adj_x[index + b*j], weights[i*n + j] * adj_f). */
  method AddInputGrad(W: array<real>, m: nat, n: nat, index: nat, b: nat, i: nat, j: nat, adjF: real,
                      adjX: array<real>, ghost X0: seq<real>)
    requires m * n <= W.Length && index < b && i < m && j < n && n * b <= adjX.Length && adjX != W
    requires adjX[..] == RowPass(X0, W[..], m, n, index, b, i, adjF, j)
    modifies adjX
    ensures adjX[..] == RowPass(X0, W[..], m, n, index, b, i, adjF, j + 1)
  {
    RowMajorInRange(n, m, i, j);
    RowMajorInRange(b, n, j, index);
    ColumnOffset(b, index, j);
    ghost var Xb, Ws := adjX[..], W[..];
    RowPassStep(Xb, X0, Ws, m, n, index, b, i, adjF, j);
    ghost var d := W[i * n + j] * adjF;
    assert d == Weight(Ws, m, n, i, j) * adjF;
    AtomicAdd(adjX, index + b * j, W[i * n + j] * adjF);
    assert adjX[..] == Xb[index + b * j := Xb[index + b * j] + d];
    assert W[..] == Ws;
  }

  /** `adj_mlp`: recomputes each row's pre-activation, takes adj_f from the activation's
      adjoint (0 without an output gradient), and accumulates x adj_f^T into adj_weights,
      W^T adj_f into the sample's column of adj_x and adj_f into adj_bias, for whichever of
      these buffers are present. */
  method AdjMlp(W: array<real>, m: nat, n: nat, bias: array<real>, index: nat, X: array<real>, b: nat,
                adjW: array?<real>, adjBias: array?<real>, adjAct: (real, real, real) -> real,
                adjX: array?<real>, adjOut: array?<real>)
    requires LayerFits(m, n, W.Length, bias.Length, index, b, X.Length)
    requires adjOut != null ==> m * b <= adjOut.Length
    requires adjW != null ==>
      (m * n <= adjW.Length && adjW != W && adjW != bias && adjW != X && adjW != adjOut && adjW != adjBias && adjW != adjX)
    requires adjBias != null ==>
      (m <= adjBias.Length && adjBias != W && adjBias != bias && adjBias != X && adjBias != adjOut && adjBias != adjX)
    requires adjX != null ==>
      (n * b <= adjX.Length && adjX != W && adjX != bias && adjX != X && adjX != adjOut)
    modifies adjW, adjBias, adjX
    ensures var g := AdjFs(W[..], m, n, bias[..], X[..], b, index, adjAct, adjOut != null, Contents(adjOut));
      (adjW != null ==> adjW[..] == WeightGrad(old(adjW[..]), m, n, g, Sample(X[..], n, b, index)))
      && (adjX != null ==> adjX[..] == InputGrad(old(adjX[..]), W[..], m, n, g, index, b))
      && (adjBias != null ==> adjBias[..] == BiasGrad(old(adjBias[..]), g, m))
  {
    ghost var g := AdjFs(W[..], m, n, bias[..], X[..], b, index, adjAct, adjOut != null, Contents(adjOut));
    ghost var v := Sample(X[..], n, b, index);
    ghost var W0 := if adjW == null then [] else adjW[..];
    ghost var X0 := if adjX == null then [] else adjX[..];
    ghost var B0 := if adjBias == null then [] else adjBias[..];
    for i := 0 to m
      invariant adjW != null ==> adjW.Length == |W0|
      invariant adjW != null ==> forall q :: 0 <= q < adjW.Length && q < i * n ==> adjW[q] == WeightGradAt(W0, m, n, g, v, q)
      invariant adjW != null ==> forall q :: 0 <= q < adjW.Length && i * n <= q ==> adjW[q] == W0[q]
      invariant adjX != null ==> adjX.Length == |X0|
      invariant adjX != null ==> forall q :: 0 <= q < adjX.Length ==> adjX[q] == InputGradAt(X0, W[..], m, n, g, index, b, i, q)
      invariant adjBias != null ==> adjBias[..] == BiasGrad(B0, g, i)
    {
      AdjMlpIteration(W, m, n, bias, index, X, b, adjW, adjBias, adjAct, adjX, adjOut, i, g, v, W0, X0, B0);
    }
    if adjW != null {
      assert adjW[..] == WeightGrad(W0, m, n, g, v);
    }
    if adjX != null {
      assert adjX[..] == InputGrad(X0, W[..], m, n, g, index, b);
    }
  }

  /** The body of the loop over rows of `adj_mlp`: row i's pre-activation, its adj_f, and
      that row's contributions to the three gradients. */
  method AdjMlpIteration(W: array<real>, m: nat, n: nat, bias: array<real>, index: nat, X: array<real>, b: nat,
                         adjW: array?<real>, adjBias: array?<real>, adjAct: (real, real, real) -> real,
                         adjX: array?<real>, adjOut: array?<real>, i: nat,
                         ghost g: seq<real>, ghost v: seq<real>, ghost W0: seq<real>, ghost X0: seq<real>, ghost B0: seq<real>)
    requires LayerFits(m, n, W.Length, bias.Length, index, b, X.Length) && i < m
    requires adjOut != null ==> m * b <= adjOut.Length
    requires adjW != null ==>
      (m * n <= adjW.Length && adjW != W && adjW != bias && adjW != X && adjW != adjOut && adjW != adjBias && adjW != adjX)
    requires adjBias != null ==>
      (m <= adjBias.Length && adjBias != W && adjBias != bias && adjBias != X && adjBias != adjOut && adjBias != adjX)
    requires adjX != null ==>
      (n * b <= adjX.Length && adjX != W && adjX != bias && adjX != X && adjX != adjOut)
    requires g == AdjFs(W[..], m, n, bias[..], X[..], b, index, adjAct, adjOut != null, Contents(adjOut))
    requires v == Sample(X[..], n, b, index)
    requires adjW != null ==> adjW.Length == |W0|
    requires adjW != null ==> forall q :: 0 <= q < adjW.Length && q < i * n ==> adjW[q] == WeightGradAt(W0, m, n, g, v, q)
    requires adjW != null ==> forall q :: 0 <= q < adjW.Length && i * n <= q ==> adjW[q] == W0[q]
    requires adjX != null ==> adjX.Length == |X0|
    requires adjX != null ==> forall q :: 0 <= q < adjX.Length ==> adjX[q] == InputGradAt(X0, W[..], m, n, g, index, b, i, q)
    requires adjBias != null ==> |B0| == adjBias.Length && adjBias[..] == BiasGrad(B0, g, i)
    modifies adjW, adjBias, adjX
    ensures adjW != null ==> forall q :: 0 <= q < adjW.Length && q < (i + 1) * n ==> adjW[q] == WeightGradAt(W0, m, n, g, v, q)
    ensures adjW != null ==> forall q :: 0 <= q < adjW.Length && (i + 1) * n <= q ==> adjW[q] == W0[q]
    ensures adjX != null ==> forall q :: 0 <= q < adjX.Length ==> adjX[q] == InputGradAt(X0, W[..], m, n, g, index, b, i + 1, q)
    ensures adjBias != null ==> adjBias[..] == BiasGrad(B0, g, i + 1)
  {
    var tmp := PreActivation(W, m, n, bias, index, X, b, i);
    var adjF := 0.0;
    if adjOut != null {
      RowMajorInRange(b, m, i, index);
      ColumnOffset(b, index, i);
      adjF := adjAct(tmp, adjF, adjOut[index + b * i]);
    }
    assert adjF == g[i];
    ghost var Wb := if adjW == null then [] else adjW[..];
    ghost var Xb := if adjX == null then [] else adjX[..];
    AdjMlpRow(W, m, n, index, X, b, i, adjF, adjW, adjBias, adjX);
    if adjW != null {
      WeightRowStep(adjW[..], Wb, W0, m, n, g, v, X[..], b, index, i);
    }
    if adjX != null {
      InputRowStep(adjX[..], Xb, X0, W[..], m, n, g, index, b, i);
    }
    if adjBias != null {
      assert adjBias[..] == BiasGrad(B0, g, i + 1);
    }
  }

  /** After row i of the adjoint, the weights' gradient covers rows 0..i. */
  lemma WeightRowStep(Wn: seq<real>, Wb: seq<real>, W0: seq<real>, m: nat, n: nat, g: seq<real>, v: seq<real>,
                      X: seq<real>, b: nat, index: nat, i: nat)
    requires m * n <= |W0| && |g| == m && i < m && index < b && n * b <= |X| && v == Sample(X, n, b, index)
    requires |Wn| == |Wb| == |W0|
    requires forall q :: 0 <= q < |Wb| && q < i * n ==> Wb[q] == WeightGradAt(W0, m, n, g, v, q)
    requires forall q :: 0 <= q < |Wb| && i * n <= q ==> Wb[q] == W0[q]
    requires Wn == RowWeight(Wb, X, n, b, index, i, g[i], n)
    ensures forall q :: 0 <= q < |Wn| && q < (i + 1) * n ==> Wn[q] == WeightGradAt(W0, m, n, g, v, q)
    ensures forall q :: 0 <= q < |Wn| && (i + 1) * n <= q ==> Wn[q] == W0[q]
  {
    NextRow(n, i);
    forall q | 0 <= q < |Wn|
      ensures Wn[q] == RowWeightAt(Wb, X, n, b, index, i, g[i], n, q)
    {
    }
    forall q | i * n <= q < i * n + n && q < |Wn|
      ensures Wn[q] == WeightGradAt(W0, m, n, g, v, q)
    {
      WeightRowEntry(Wn[q], Wb[q], W0, m, n, g, v, X, b, index, i, q - i * n);
    }
  }

  /** Entry (i, j) of the weights' gradient once row i has been added. */
  lemma WeightRowEntry(w: real, wb: real, W0: seq<real>, m: nat, n: nat, g: seq<real>, v: seq<real>,
                       X: seq<real>, b: nat, index: nat, i: nat, j: nat)
    requires m * n <= |W0| && |g| == m && i < m && j < n && index < b && n * b <= |X| && v == Sample(X, n, b, index)
    requires i * n + j < |W0| && wb == W0[i * n + j]
    requires w == wb + Input(X, n, b, index, j) * g[i]
    ensures w == WeightGradAt(W0, m, n, g, v, i * n + j)
  {
    WeightGradInRow(W0, m, n, g, v, i, j);
    assert v[j] == Input(X, n, b, index, j);
  }

  lemma WeightGradInRow(W0: seq<real>, m: nat, n: nat, g: seq<real>, v: seq<real>, i: nat, j: nat)
    requires m * n <= |W0| && |g| == m && |v| == n && i < m && j < n
    ensures i * n + j < m * n
    ensures WeightGradAt(W0, m, n, g, v, i * n + j) == W0[i * n + j] + v[j] * g[i]
  {
    RowMajorInRange(n, m, i, j);
    RowMajorDivMod(n, i, j);
  }

  /** After row i of the adjoint, the input's gradient covers rows 0..i. */
  lemma InputRowStep(Xn: seq<real>, Xb: seq<real>, X0: seq<real>, W: seq<real>, m: nat, n: nat, g: seq<real>,
                     index: nat, b: nat, i: nat)
    requires m * n <= |W| && |g| == m && i < m && index < b
    requires |Xn| == |Xb| == |X0|
    requires forall q :: 0 <= q < |Xb| ==> Xb[q] == InputGradAt(X0, W, m, n, g, index, b, i, q)
    requires Xn == RowPass(Xb, W, m, n, index, b, i, g[i], n)
    ensures forall q :: 0 <= q < |Xn| ==> Xn[q] == InputGradAt(X0, W, m, n, g, index, b, i + 1, q)
  {
  }

  /** The input's gradient is the transposed multiply W^T adj_f, placed in the sample's column. */
  lemma {:induction false} TransposedSumIsGemm(W: seq<real>, m: nat, n: nat, g: seq<real>, j: nat, k: nat)
    requires m * n <= |W| && |g| == m && j < n && k <= m
    ensures GemmFits(n, 1, m, |W|, 0, |g|, 0, n, 0)
    ensures TransposedSum(W, m, n, g, j, k) == GemmSum(true, false, n, 1, m, W, 0, g, 0, j, 0, k)
  {
    assert n * m == m * n;
    if k > 0 {
      TransposedSumIsGemm(W, m, n, g, j, k - 1);
      assert Operand(true, n, m, W, 0, j, k - 1) == Weight(W, m, n, k - 1, j);
      assert Operand(false, m, 1, g, 0, k - 1, 0) == g[k - 1];
    }
  }
}
