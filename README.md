# Dense linear algebra kernels and geometry partitions of Warp, modelled in Dafny

This project models two parts of Warp.

**Dense kernels of `warp/native/matnn.h`.** These are small dense routines that run one
matrix per thread or per block:
- the row-major index helpers `dense_index`;
- the multiply `dense_gemm` (with transpose flags and an accumulate mode) and its batched form;
- the Cholesky factorization `dense_chol` with a diagonal regularization;
- the two-pass triangular substitution `dense_subs` and the solve `dense_solve` built on it;
- the reverse-mode adjoints of the multiply and the solve, and the no-op adjoints;
- one dense layer `mlp` and its adjoint `adj_mlp`.

Each kernel becomes a Dafny method over `array<real>` buffers with an explicit offset,
which stands for the pointer `A + offset`. Each method is proved against a specification
function of the input contents: `C[..] == GemmResult(...)`, the Cholesky column recurrence,
the forward and backward substitution equations, and the gradient sequences. Lemmas then
state what those specifications mean:
- the multiply is the matrix product of the logical operands;
- on the lower triangle, the factor satisfies L Lᵀ = A + diag(reg) when `sqrt` is a square root
  on the non-negative reals and every pivot is positive;
- the substitution solves (L Lᵀ) x = b;
- the corrected adjoint of the multiply adds exactly the gradients of both operands (the
  adjoint as written is wrong when t2 = 1, and when t1 = t2 = 1; see "## Findings");
- the layer's gradients are the outer product g xᵀ and the product Wᵀ g.

**Partitions of `warp/fem/geometry/partition.py`.**
- A `LinearGeometryPartition` gives rank r of `count` ranks a contiguous range of cell
  indices, using ceiling division.
- It converts between cell indices and partition-local indices, with a NULL sentinel.
- It classifies the sides of the geometry from their two neighbouring cells: partition
  sides, boundary sides and frontier sides.
- The explicit partition tests membership with a cell mask.
- The whole partition is the identity.

The model proves four things about the ranges: they are pairwise disjoint, they cover
[0, total), the cell counts clamped at zero add up to the total, and local and global
indices round-trip. The count as written, `cell_end - cell_begin`, can be negative, and
then the counts do not add up (see "## Findings").
It also proves consequences of the side rule, and that the whole partition coincides
with one linear rank.

Modules:
- `DenseIndexing` in dense_index.dfy;
- `Gemm` in gemm.dfy;
- `GemmAdjoint` in gemm_adjoint.dfy;
- `Cholesky` in chol.dfy;
- `Substitution` in subs.dfy;
- `SolveAdjoint` in solve_adjoint.dfy;
- `Layer` in mlp.dfy;
- `GeometryPartition` in partition.dfy.

Parameters that stand for the environment:
- The thread index `tid()` is an explicit parameter `tid`. The multiply's batch is
  `tid / 256`; the other kernels' batch is `tid`.
- `sqrt`, the activation and the activation's adjoint are function parameters.
- The geometry's `side_inner_cell_index` and `side_outer_cell_index` are the functions
  `inner` and `outer` of a `Geometry` value.

## Model

| member | source | states |
|---|---|---|
| DenseIndexing.DenseIndexInRange | warp/native/matnn.h:21-28 | both layouts of `dense_index<transpose>` address only positions inside the rows*cols block |
| DenseIndexing.DenseIndexInjective | warp/native/matnn.h:21-28 | distinct in-range coordinates never share an offset, in either layout |
| DenseIndexing.OverloadsAgree | warp/native/matnn.h:16-28 | the stride overload with stride cols is the untransposed overload; the transposed overload reads the cols x rows row-major matrix at (j, i) |
| DenseIndexing.ElementAfterWrite | warp/native/matnn.h:16-19 | writing one element of a row-major block changes that element and no other |
| DenseIndexing.DenseIndexStride | warp/native/matnn.h:16-19 | the definition of `dense_index(stride, i, j)`, i*stride + j; it has no contract of its own, and DenseIndexInRange, DenseIndexInjective and OverloadsAgree state its range, injectivity and relation to the template overload |
| DenseIndexing.DenseIndex | warp/native/matnn.h:21-28 | the definition of `dense_index<transpose>`, j*rows + i when transposed and i*cols + j otherwise; it has no contract of its own, and DenseIndexInRange, DenseIndexInjective and OverloadsAgree state its properties |
| DenseIndexing.Quot | warp/native/matnn.h:138 | the division used by the kernels: for a nonzero divisor, quotient times divisor is the dividend |
| Gemm.DenseGemmImpl | warp/native/matnn.h:32-52 | C becomes GemmResult: inside the m x n block each entry is (old entry if accumulating) plus the k-sum of op1(A)[i][k]*op2(B)[k][j]; nothing outside the block changes |
| Gemm.GemmDot | warp/native/matnn.h:39-44 | the inner loop returns the full k-sum of the entry |
| Gemm.IsFlag | warp/native/matnn.h:58-65 | the flags the dispatch recognises: for them the truth test of the flag and the comparison with 1 agree, and any other value matches neither 0 nor 1 |
| Gemm.DenseGemm | warp/native/matnn.h:55-66 | flags 0/1 dispatch to the four layouts; any other flag value leaves C unchanged |
| Gemm.DenseGemmBatched | warp/native/matnn.h:68-79 | batch tid/256 multiplies the operands at its start offsets into its own block of C |
| Gemm.GemmResultAt | warp/native/matnn.h:46-49 | entry (i, j) of the result is its accumulated or overwritten sum |
| Gemm.GemmResultOutside | warp/native/matnn.h:47-49 | positions outside C's block keep their value |
| Gemm.GemmAccumulateIsAddition | warp/native/matnn.h:46-49 | accumulate mode equals old C plus the overwrite-mode product |
| Gemm.GemmBatchesCommute | warp/native/matnn.h:68-79 | batches with disjoint output blocks give the same C in either order |
| Gemm.TransposedOperand | warp/native/matnn.h:21-28 | the transposed view of a buffer is the transpose of its row-major view |
| Gemm.GemmSumIsProduct | warp/native/matnn.h:39-44 | the k-sum is the dot product of row i of op1(A) and column j of op2(B), so the result is the matrix product |
| Gemm.GemmExample | warp/native/matnn.h:32-52 | two concrete 2x2 products, untransposed and with A transposed |
| GemmAdjoint.AdjDenseGemmAsWritten | warp/native/matnn.h:190-209 | the adjoint as written: two accumulating multiplies whose layouts ignore t2 for the gradient of B, and for A when t1 is set |
| GemmAdjoint.AsWrittenAdjA | warp/native/matnn.h:199-208 | adjA after the source's first accumulating multiply: same length, and every position outside A's m x p block is kept |
| GemmAdjoint.AsWrittenAdjB | warp/native/matnn.h:199-208 | adjB after the source's second accumulating multiply: same length, and every position outside B's p x n block is kept |
| GemmAdjoint.AsWrittenAgreesWhenBUntransposed | warp/native/matnn.h:199-208 | the as-written adjoint is correct for A unless t1 = t2 = 1, and for B when t2 = 0 |
| GemmAdjoint.AsWrittenGradBWrongWhenBTransposed | warp/native/matnn.h:202-207 | with t1 = 0 and t2 = 1, a concrete input where the as-written gradient of B is not the exact one |
| GemmAdjoint.AsWrittenGradAWrongWhenBothTransposed | warp/native/matnn.h:201 | with t1 = t2 = 1, a concrete input where the as-written gradient of A is not the exact one |
| GemmAdjoint.AdjDenseGemm | warp/native/matnn.h:190-209 | the corrected adjoint writes the corrected gradient sequences into adjA and adjB |
| GemmAdjoint.CorrectedAdjA | warp/native/matnn.h:199-208 | adjA after the corrected first multiply, which reads B with its own flag: same length, and every position outside A's block is kept |
| GemmAdjoint.CorrectedAdjB | warp/native/matnn.h:199-208 | adjB after the corrected second multiply, written in B's own layout: same length, and every position outside B's block is kept |
| GemmAdjoint.CorrectedGradAIsExact | warp/native/matnn.h:199-208 | the corrected adjA adds, in A's storage layout, exactly adjC op2(B)ᵀ for every flag combination, and nothing outside A's block |
| GemmAdjoint.CorrectedGradBIsExact | warp/native/matnn.h:199-208 | the corrected adjB adds, in B's storage layout, exactly op1(A)ᵀ adjC for every flag combination, and nothing outside B's block |
| GemmAdjoint.AdjDenseGemmBatched | warp/native/matnn.h:212-225 | batch tid/256 accumulates the exact gradients of its own operands |
| GemmAdjoint.OperandDual | warp/native/matnn.h:21-28 | reading a buffer transposed with swapped shape and coordinates gives the same entry |
| Cholesky.DenseChol | warp/native/matnn.h:82-111 | L satisfies the column recurrence: each diagonal entry is sqrt(A[j][j] + reg[j] - sum of L[j][k]^2), each entry below it is (A[i][j] - sum of L[i][k]L[j][k]) / L[j][j]; only the lower triangle of L's block is written |
| Cholesky.FactorColumn | warp/native/matnn.h:84-109 | one outer iteration completes column j and keeps the footprint |
| Cholesky.FillBelow | warp/native/matnn.h:99-109 | the inner loop sets every entry below the diagonal of column j |
| Cholesky.FillEntry | warp/native/matnn.h:101-108 | one pass of the inner loop completes entry (i, j) below the diagonal, keeping the finished columns, the diagonal and the entries above i |
| Cholesky.SubtractRowDot | warp/native/matnn.h:88-92 | the k loop subtracts the dot product of two rows of L over the first j columns |
| Cholesky.Eliminate | warp/native/matnn.h:95-108 | s*invS with invS = 1/L[j][j]: times the pivot it gives back a - s |
| Cholesky.ColumnsDoneIsRecurrence | warp/native/matnn.h:84-110 | all columns done is the factorization recurrence |
| Cholesky.CholFactorizes | warp/native/matnn.h:82-111 | if sqrt is a real square root and the pivots are positive, the recurrence gives L Lᵀ = A + diag(reg) on the lower triangle |
| Cholesky.RowDotAfterWrite | warp/native/matnn.h:97-108 | writing column c leaves row dot products over earlier columns unchanged |
| Cholesky.WriteKeepsColumns | warp/native/matnn.h:97-108 | writing in column c keeps the finished columns before it |
| Cholesky.WriteSetsDiagonal | warp/native/matnn.h:94-97 | writing the square root on the diagonal completes that diagonal entry |
| Cholesky.WriteSetsBelow | warp/native/matnn.h:101-108 | writing the eliminated value completes that entry below the diagonal |
| Cholesky.DenseCholBatched | warp/native/matnn.h:114-122 | batch tid factors the block at its start, with regularization read from offset n*tid |
| Cholesky.AdjDenseChol | warp/native/matnn.h:228-233 | the adjoint is a no-op: no gradient buffer changes |
| Cholesky.AdjDenseCholBatched | warp/native/matnn.h:236-241 | the batched adjoint is a no-op |
| Substitution.ForwardPass | warp/native/matnn.h:128-139 | the first pass makes x satisfy y[i] = (b[i] - sum over j < i of L[i][j] y[j]) / L[i][i], and writes only x's slice |
| Substitution.BackwardPass | warp/native/matnn.h:141-152 | the second pass makes x[i] = (y[i] - sum over j > i of L[j][i] x[j]) / L[i][i], running i downwards |
| Substitution.ForwardDot | warp/native/matnn.h:133-136 | the inner loop subtracts the row prefix sum |
| Substitution.BackwardDot | warp/native/matnn.h:146-149 | the inner loop subtracts the column suffix sum |
| Substitution.DenseSubs | warp/native/matnn.h:125-153 | some intermediate y solves the forward equations and x the backward ones; only x's slice changes |
| Substitution.SubstitutionSolves | warp/native/matnn.h:125-153 | for a nonzero diagonal, the two passes hold iff L y = b and Lᵀ x = y, so (L Lᵀ) x = b |
| Substitution.SolvesAt | warp/native/matnn.h:129-152 | for a nonzero pivot, row i of each pass holds iff row i of L y = b, and of Lᵀ x = y, holds |
| Substitution.ForwardStep | warp/native/matnn.h:129-139 | one forward step extends the solved prefix |
| Substitution.BackwardStep | warp/native/matnn.h:142-152 | one backward step extends the solved suffix |
| Substitution.DenseSolve | warp/native/matnn.h:155-158 | the solve is the substitution; A and tmp are not used |
| Substitution.DenseSolveBatched | warp/native/matnn.h:161-169 | batch tid solves its system at the start offsets of its factor and vectors |
| Substitution.AdjDenseSubs | warp/native/matnn.h:244-249 | the substitution's adjoint is a no-op |
| SolveAdjoint.AdjDenseSolve | warp/native/matnn.h:252-278 | tmp solves (L Lᵀ) tmp = adj_x, adj_b gains tmp on its slice, adj_A gains -tmp xᵀ on its block, and nothing else changes |
| SolveAdjoint.AddToGradB | warp/native/matnn.h:263-266 | adj_b gains tmp entrywise on its slice |
| SolveAdjoint.SubtractOuter | warp/native/matnn.h:271-277 | adj_A gains -tmp[i]*x[j] at (i, j) of its block |
| SolveAdjoint.SubtractOuterRow | warp/native/matnn.h:272-276 | the inner loop completes row i of the outer-product update and leaves the rows after it unchanged |
| SolveAdjoint.AddAt | warp/native/matnn.h:263-266 | adding a vector at an offset changes no position outside the slice |
| SolveAdjoint.OuterUpdateEntries | warp/native/matnn.h:271-277 | the outer-product update entry by entry and outside the block |
| SolveAdjoint.OuterUpdateIsGemm | warp/native/matnn.h:271-277 | the update equals an accumulating rank-1 multiply of -tmp by x |
| SolveAdjoint.AdjointSolvesTransposedSystem | warp/native/matnn.h:261 | the vector the adjoint computes solves (L Lᵀ) w = adj_x |
| SolveAdjoint.AdjDenseSolveBatched | warp/native/matnn.h:281-295 | batch tid runs the adjoint solve on its own slices |
| Layer.PreActivation | warp/native/matnn.h:307-312 | the inner loop gives bias[i] plus row i of the weights against the sample |
| Layer.Mlp | warp/native/matnn.h:298-316 | out becomes MlpResult: inside column `index`, output i is act of its pre-activation, and nothing else changes |
| Layer.MlpStep | warp/native/matnn.h:314 | writing output i extends the finished rows by one |
| Layer.MlpColumn | warp/native/matnn.h:298-316 | output i is act(bias[i] + entry (i, index) of weights times x), as a gemm sum; outside the column nothing changes |
| Layer.PreSumIsGemm | warp/native/matnn.h:307-312 | the pre-activation equals bias[i] plus the multiply's k-sum |
| Layer.AdjMlp | warp/native/matnn.h:318-358 | with g[i] the activation adjoint of row i (0 without adj_out): adj_weights gains g xᵀ, adj_x's column gains Wᵀ g, adj_bias gains g; each only when present |
| Layer.AdjMlpIteration | warp/native/matnn.h:327-357 | one row of the adjoint extends the weight, input and bias gradients from rows below i to rows up to i |
| Layer.AdjMlpRow | warp/native/matnn.h:342-355 | one row's contributions to the three present gradient buffers |
| Layer.AddWeightGrad | warp/native/matnn.h:345-346 | one weight-gradient accumulation extends the row pass |
| Layer.AddInputGrad | warp/native/matnn.h:349-350 | one input-gradient accumulation extends the row pass |
| Layer.AtomicAdd | warp/native/matnn.h:346 | the accumulation adds to one position and changes nothing else |
| Layer.WeightRowStep | warp/native/matnn.h:342-351 | after row i the weight gradient is complete for rows up to i and untouched after |
| Layer.WeightGradInRow | warp/native/matnn.h:346 | entry (i, j) of the weight gradient is old entry plus x[j]*g[i] |
| Layer.InputRowStep | warp/native/matnn.h:349-350 | after row i the input gradient holds the sums over rows up to i |
| Layer.TransposedSumIsGemm | warp/native/matnn.h:349-350 | the input gradient sum is entry j of a transposed multiply Wᵀ g |
| Layer.RowPassStep | warp/native/matnn.h:349-350 | adding at column position j extends the input pass by one |
| Layer.RowWeightStep | warp/native/matnn.h:345-346 | adding at (i, j) extends the weight pass by one |
| GeometryPartition.CellsPerPartition | warp/fem/geometry/partition.py:234 | the result is the ceiling of total / count: count copies cover total, one fewer do not |
| GeometryPartition.LinearCellArg | warp/fem/geometry/partition.py:232-236 | the range ends by the last cell, holds at most cells_per_partition cells, and starts at a non-negative index for a non-negative rank |
| GeometryPartition.LinearGeometryPartition.constructor | warp/fem/geometry/partition.py:215-242 | the fields hold that rank's range, and the side lists are the masked indices of the side masks of that range |
| GeometryPartition.CellIndex | warp/fem/geometry/partition.py:258-261 | local index to cell: the cell is owned exactly when the local index is in [0, end - begin) |
| GeometryPartition.CellInclusionTest | warp/fem/geometry/partition.py:275-277 | a cell is included exactly when its offset from `cell_begin` is in [0, end - begin), which needs a non-empty range |
| GeometryPartition.PartitionCellIndexAsWritten | warp/fem/geometry/partition.py:263-273 | the map as written gives NULL exactly below `cell_begin` or past `cell_end`, otherwise a local index that maps back, and agrees with the corrected map on owned cells |
| GeometryPartition.CellCountAsWritten | warp/fem/geometry/partition.py:244-245 | the count as written is negative exactly when the range starts past its end, and otherwise equals the corrected count |
| GeometryPartition.PartitionCellIndex | warp/fem/geometry/partition.py:264-273 | the corrected map gives NULL exactly for cells outside [begin, end), and otherwise the non-negative local index that maps back to the cell |
| GeometryPartition.CellCount | warp/fem/geometry/partition.py:244-245 | the corrected count is non-negative and the local indices 0 <= k < count are exactly those naming owned cells |
| GeometryPartition.LocalIndexRoundTrip | warp/fem/geometry/partition.py:258-273 | local index to cell and back is the identity below the count, with both versions of the map; owned cell to local index and back is the identity |
| GeometryPartition.RanksDisjoint | warp/fem/geometry/partition.py:276-277 | no cell passes the inclusion test of two different ranks |
| GeometryPartition.RanksCover | warp/fem/geometry/partition.py:232-236 | a cell is in [0, total) iff some rank in [0, count) includes it, and that rank is unique |
| GeometryPartition.OwnerRank | warp/fem/geometry/partition.py:234-236 | every cell of the geometry has an owning rank below count |
| GeometryPartition.OwnedCellsPrefix | warp/fem/geometry/partition.py:232-245 | ranks 0 .. k-1 own min(cells_per_partition * k, total) cells together |
| GeometryPartition.CountsSumToTotal | warp/fem/geometry/partition.py:232-245 | the corrected cell counts of all ranks add up to the number of cells |
| GeometryPartition.PartitionCellIndexAcceptsCellEnd | warp/fem/geometry/partition.py:266 | with 10 cells over 2 ranks, rank 0 as written maps cell 5, owned by rank 1, to local index 5 |
| GeometryPartition.CellCountAsWrittenNegative | warp/fem/geometry/partition.py:244-245 | with 5 cells over 4 ranks, rank 3 as written has count -1 and the counts add up to 4 |
| GeometryPartition.ComputeSideMasks | warp/fem/geometry/partition.py:148-206 | from zeroed masks, side s is a partition side iff its inner cell is included, a boundary side iff also inner == outer, a frontier side iff exactly one neighbour is included; every mask entry is 0 or 1 |
| GeometryPartition.MaskedIndices | warp/fem/geometry/partition.py:209-211 | the listed indices are in range, marked, strictly increasing, and every marked position is listed |
| GeometryPartition.BoundarySidesArePartitionSides | warp/fem/geometry/partition.py:162-172 | every boundary side is a partition side and not a frontier side, so there are no more boundary sides than partition sides |
| GeometryPartition.FewerMarks | warp/fem/geometry/partition.py:209-211 | a mask whose marks are included in another's lists no more indices |
| GeometryPartition.FullMask | warp/fem/geometry/partition.py:209-211 | a fully marked mask lists 0, 1, ... in order |
| GeometryPartition.ExplicitCellInclusionTest | warp/fem/geometry/partition.py:322-324 | for a mask entry that is 0 or 1, the test `mask[c] > 0` holds exactly when the entry is 1 |
| GeometryPartition.ExplicitInclusionMatchesCells | warp/fem/geometry/partition.py:322-324 | for a 0/1 mask, `mask[c] > 0` holds iff c is one of the partition's listed cells |
| GeometryPartition.IdentityElementIndex | warp/fem/geometry/partition.py:88-90 | `_identity_element_index` returns its index unchanged; the whole partition uses it for its cell, partition-cell, side and frontier maps |
| GeometryPartition.WholeFrontierSideCount | warp/fem/geometry/partition.py:77-78 | the whole partition reports no frontier sides (WholeHasNoFrontier shows the side rule agrees) |
| GeometryPartition.WholeCellCount | warp/fem/geometry/partition.py:68-69 | the whole partition's cell count is the count of the only rank of a one-rank linear partition |
| GeometryPartition.WholeIsSingleLinearPartition | warp/fem/geometry/partition.py:57-69 | the whole partition's cell count and identity cell maps are those of the single-rank linear partition |
| GeometryPartition.WholeHasNoFrontier | warp/fem/geometry/partition.py:60-78 | when all sides' cells are cells of the geometry, the single-rank partition lists every side in order (identity side map), and its frontier is empty, matching frontier_side_count = 0 |

## Left out

- Floating point. Buffers hold `real`, so single-precision rounding, infinities and NaN
  propagation are not modelled.
- Division by zero. `1.0f/s` in the factorization and `s/L[i][i]` in the substitution use
  `Quot`, which is the real quotient for a nonzero divisor and 0 otherwise.
- `sqrt`. It is an arbitrary function parameter. The factorization property
  `CholFactorizes` assumes it is a square root on the non-negative reals and that the
  pivots are positive.
- Threads. `tid()` is a parameter. `atomic_add` is a plain addition, so concurrent
  accumulation by several threads is not modelled.
- Integer width. The kernels compute offsets such as `i*n + j` and `index + b*i` in 32-bit
  `int`, and the partition's `@wp.func` maps use 32-bit `int` as well. Model indices are
  unbounded, so index overflow is not modelled.
- GeometryPartition.CellsPerPartition, GeometryPartition.LinearCellArg and
  GeometryPartition.LinearGeometryPartition.constructor require a positive partition count.
  For a count of 0 the constructor raises ZeroDivisionError at
  `warp/fem/geometry/partition.py:234`. A negative count gives ranges from Python's floor
  division. Neither case is modelled.
- Aliasing the source does not rule out.
  - GemmAdjoint.AdjDenseGemmAsWritten, GemmAdjoint.AdjDenseGemm and
    GemmAdjoint.AdjDenseGemmBatched require `adjA` and `adjB` to be distinct arrays, and
    distinct from the inputs. `adj_dense_gemm` takes plain `float*` gradients. So the case
    where one buffer receives both gradients (for example Aᵀ A, with A passed as both
    operands) is not modelled.
  - Layer.Mlp requires `out` to be distinct from `x` and the other inputs. Layer.AdjMlp
    requires `adj_weights`, `adj_bias` and `adj_x` to be distinct from each other and from
    the inputs. `mlp` and `adj_mlp` take `array_t` references without `__restrict__`. So the
    case where a write changes a value that is read later is not modelled.
  - The distinctness required by `dense_gemm`, `dense_chol`, `dense_subs` and
    `adj_dense_solve` follows from their `__restrict__` pointers.
- Dimensions. They are `nat`. A negative `int` dimension in the source makes the loops
  empty, and such a call is not modelled.
- Buffer sizes. `mlp` and `adj_mlp` read m, n and b from the tensors' shapes. The model
  passes them in and requires the buffers to be at least that large.
- Unused parameters.
  - Dropped: `C`, `adj_m`, `adj_n`, `adj_p`, `adj_t1` and `adj_t2` of `adj_dense_gemm`.
  - Dropped: `C`, `adj_m`, `adj_n`, `adj_p`, `adj_t1`, `adj_t2` and the `adj_A_start`,
    `adj_B_start` and `adj_C_start` tables of `adj_dense_gemm_batched`, which indexes the
    gradients with `A_start`, `B_start` and `C_start`.
  - Dropped: `adj_n` of `adj_dense_chol` and `adj_dense_subs`, and `adj_A_start` and
    `adj_A_dim` of `adj_dense_chol_batched`.
  - Dropped: `tmp` of `dense_solve_batched`, which passes NULL in its place.
  - Dropped: `A`, `b`, `adj_n`, `adj_L` and `adj_tmp` of `adj_dense_solve`.
  - Dropped: `A`, `b`, `adj_b_start`, `adj_A_start`, `adj_A_dim`, `adj_L` and `adj_tmp` of
    `adj_dense_solve_batched`, which indexes the gradients with `b_start` and `A_start`.
  - Dropped: `activation`, `out` and `adj_index` of `adj_mlp`.
  - Kept but unread: `dense_solve`'s `A` and `tmp`.
- GemmAdjoint.AdjDenseGemmBatched: it calls the corrected adjoint, not the as-written one.
  The as-written single adjoint is `AdjDenseGemmAsWritten`.
- Cholesky.DenseCholBatched: follows the code, reading the regularization at `n*batch`.
  This is the batch's own diagonal only when all batches have the same dimension; the
  offset tables give no other position for it.
- Commented-out code. `print_matrix` and the older `mlp` variants are not modelled.
- `masked_indices`. It lives in `warp/fem/utils.py`, which is not part of this model. It
  is modelled as `MaskedIndices` (the positions holding 1, in increasing order). The
  inverse map it also returns is not modelled.
- Warp plumbing. `wp.launch`, `cache.get_kernel`, `wp.zeros`, `.to(device)`,
  `cell_arg_value`, `side_arg_value` and the struct and function decorators are not
  modelled. The side kernel is modelled as a loop over the sides.
- `NULL_ELEMENT_INDEX`. It is defined in `warp/fem/types.py`, which is not part of this
  model. It is taken as -1; the properties only need it to be negative.
- `WholeGeometryPartition`'s boundary side map and the side and boundary counts. These
  forward to the geometry, which is foreign code.
- `ExplicitGeometryPartition`. Its `cell_index`, `partition_cell_index` and
  `cell_count` read the output of `masked_indices` and are not modelled beyond
  `ExplicitInclusionMatchesCells`.

## Findings

| source | as written | input that shows it | evidently intended | confidence | as-written member | corrected member |
|---|---|---|---|---|---|---|
| warp/native/matnn.h:202-207 | the gradient of B is always written row-major p x n, even when t2 = 1 stores B as n x p (line 202 when t1 = 1, line 207 when t1 = 0) | m = 1, n = 2, p = 2, t1 = 0, t2 = 1, A = [1, 2], adj_C = [1, 0], adj_B = 0: gives [1, 0, 2, 0] instead of [1, 2, 0, 0] | write op1(A)ᵀ adj_C in B's own layout, as adj_Cᵀ op1(A) when t2 = 1 | not executed | GemmAdjoint.AsWrittenGradBWrongWhenBTransposed | GemmAdjoint.CorrectedGradBIsExact |
| warp/native/matnn.h:201 | with t1 = 1 the gradient of A reads B untransposed, ignoring t2 | m = 1, n = 2, p = 2, t1 = t2 = 1, B = [1, 2, 3, 4], adj_C = [1, 0], adj_A = 0: gives [1, 3] instead of [1, 2] | read B with its own flag t2 | not executed | GemmAdjoint.AsWrittenGradAWrongWhenBothTransposed | GemmAdjoint.CorrectedGradAIsExact |
| warp/fem/geometry/partition.py:266 | `cell_index > cell_end` lets the cell at `cell_end` through, which belongs to the next rank | total = 10, count = 2, rank 0 (range [0, 5)): cell 5 maps to local index 5 instead of NULL | `cell_index >= cell_end`, matching `_cell_inclusion_test` | not executed | GeometryPartition.PartitionCellIndexAcceptsCellEnd | GeometryPartition.PartitionCellIndex |
| warp/fem/geometry/partition.py:245 | `cell_end - cell_begin` is negative for a rank whose range starts past the last cell | total = 5, count = 4, rank 3: range [6, 5), count -1, and the counts of the four ranks add up to 4 | max(0, cell_end - cell_begin), so the counts add up to the total | not executed | GeometryPartition.CellCountAsWrittenNegative | GeometryPartition.CountsSumToTotal |
