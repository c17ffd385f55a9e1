/** Partitions of a finite-element geometry into owned cells, and the classification of its
    sides as partition, boundary or frontier sides (warp/fem/geometry/partition.py). */
module GeometryPartition {
  import DenseIndexing

  /** `NULL_ELEMENT_INDEX`: the sentinel for "no such element". */
  const NullElementIndex: int := -1

  /** The queries a partition asks of its geometry: the number of cells, sides and boundary
      sides, and the inner and outer neighbouring cell of each side. */
  datatype Geometry = Geometry(cellCount: nat, sideCount: nat, boundarySideCount: nat,
                               inner: nat -> int, outer: nat -> int)

  /** The per-partition cell arguments of a linear partition: the owned range [begin, end). */
  datatype CellArg = CellArg(cellBegin: int, cellEnd: int)

  // ---------------------------------------------------------------------------------------
  // Linear partitions: contiguous ranges of cell indices
  // ---------------------------------------------------------------------------------------

  /** `(total + count - 1) // count`, the ceiling of total / count. Python's floor division
      and Dafny's Euclidean division agree for a positive divisor. */
  function CellsPerPartition(total: nat, count: int): (r: nat)
    requires count > 0
    ensures total <= r * count
    ensures (r - 1) * count < total
  {
    var q := (total + count - 1) / count;
    assert total + count - 1 == q * count + (total + count - 1) % count;
    q
  }

  /** The range of rank `rank` out of `count` partitions of `total` cells, as the constructor
      computes it: begin = cpp * rank and end = min(begin + cpp, total). */
  function LinearCellArg(total: nat, rank: int, count: int): (a: CellArg)
    requires count > 0
    ensures a.cellEnd <= total
    ensures a.cellEnd - a.cellBegin <= CellsPerPartition(total, count)
    ensures 0 <= rank ==> 0 <= a.cellBegin
  {
    var cpp := CellsPerPartition(total, count);
    var begin := cpp * rank;
    assert 0 <= rank ==> 0 <= begin by {
      if 0 <= rank { DenseIndexing.MulNonNegative(cpp, rank); }
    }
    CellArg(begin, if begin + cpp <= total then begin + cpp else total)
  }

  /** `cell_index`: partition-local index to cell index. The cell is owned exactly when the
      local index is below the width of the range. */
  function CellIndex(arg: CellArg, partitionCellIndex: int): (c: int)
    ensures CellInclusionTest(arg, c) <==> 0 <= partitionCellIndex < arg.cellEnd - arg.cellBegin
  {
    arg.cellBegin + partitionCellIndex
  }

  /** `_cell_inclusion_test`: the cell lies in [begin, end), so its offset from the start
      is a local index below the width, and an including range is not empty. */
  predicate CellInclusionTest(arg: CellArg, cellIndex: int): (b: bool)
    ensures b <==> 0 <= cellIndex - arg.cellBegin < arg.cellEnd - arg.cellBegin
    ensures b ==> arg.cellBegin < arg.cellEnd
  {
    arg.cellBegin <= cellIndex < arg.cellEnd
  }

  /** `partition_cell_index` as written: it rejects cells strictly past the end, so the
      cell at `cellEnd` itself is given a local index. */
  function PartitionCellIndexAsWritten(arg: CellArg, cellIndex: int): (r: int)
    ensures r == NullElementIndex <==> cellIndex < arg.cellBegin || arg.cellEnd < cellIndex
    ensures r != NullElementIndex ==> 0 <= r && CellIndex(arg, r) == cellIndex
    ensures CellInclusionTest(arg, cellIndex) ==> r == PartitionCellIndex(arg, cellIndex)
  {
    if cellIndex > arg.cellEnd then NullElementIndex
    else if cellIndex - arg.cellBegin < 0 then NullElementIndex
    else cellIndex - arg.cellBegin
  }

  /** `partition_cell_index` with the end of the range excluded: cell to partition-local
      index, or the sentinel exactly for the cells the partition does not own. */
  function PartitionCellIndex(arg: CellArg, cellIndex: int): (r: int)
    ensures r == NullElementIndex <==> !CellInclusionTest(arg, cellIndex)
    ensures r != NullElementIndex ==> 0 <= r && CellIndex(arg, r) == cellIndex
  {
    if cellIndex >= arg.cellEnd then NullElementIndex
    else if cellIndex - arg.cellBegin < 0 then NullElementIndex
    else cellIndex - arg.cellBegin
  }

  /** `cell_count` as written: end - begin, negative for a rank whose range starts past the
      last cell. */
  function CellCountAsWritten(arg: CellArg): (r: int)
    ensures r < 0 <==> arg.cellEnd < arg.cellBegin
    ensures 0 <= r ==> r == CellCount(arg)
  {
    arg.cellEnd - arg.cellBegin
  }

  /** `cell_count` clamped at zero: the number of cells the partition owns, the local indices
      being exactly [0, count). */
  function CellCount(arg: CellArg): (r: nat)
    ensures forall k: int {:trigger CellIndex(arg, k)} ::
      0 <= k < r <==> CellInclusionTest(arg, CellIndex(arg, k))
  {
    if arg.cellEnd - arg.cellBegin < 0 then 0 else arg.cellEnd - arg.cellBegin
  }

  /** Local and global cell indices convert into each other: every local index below the
      count names an owned cell and comes back, and every owned cell comes back. */
  lemma LocalIndexRoundTrip(arg: CellArg)
    ensures forall k :: 0 <= k < CellCount(arg) ==>
      PartitionCellIndex(arg, CellIndex(arg, k)) == k
    ensures forall c :: CellInclusionTest(arg, c) ==>
      CellIndex(arg, PartitionCellIndex(arg, c)) == c
    ensures forall k :: 0 <= k < CellCount(arg) ==>
      PartitionCellIndexAsWritten(arg, CellIndex(arg, k)) == k
  {
  }

  /** Two different ranks never own the same cell. */
  lemma RanksDisjoint(total: nat, count: int, r1: int, r2: int, c: int)
    requires count > 0 && r1 != r2
    ensures !(CellInclusionTest(LinearCellArg(total, r1, count), c)
              && CellInclusionTest(LinearCellArg(total, r2, count), c))
  {
    var cpp := CellsPerPartition(total, count);
    if r1 < r2 {
      DenseIndexing.MulNonNegative(cpp, r2 - r1 - 1);
      assert cpp * r1 + cpp <= cpp * r2 by {
        assert cpp * r2 - (cpp * r1 + cpp) == cpp * (r2 - r1 - 1);
      }
    } else {
      DenseIndexing.MulNonNegative(cpp, r1 - r2 - 1);
      assert cpp * r2 + cpp <= cpp * r1 by {
        assert cpp * r1 - (cpp * r2 + cpp) == cpp * (r1 - r2 - 1);
      }
    }
  }

  /** The rank that owns cell c. */
  function OwnerRank(total: nat, count: int, c: int): (r: nat)
    requires count > 0 && 0 <= c < total
    ensures r < count && CellInclusionTest(LinearCellArg(total, r, count), c)
  {
    var cpp := CellsPerPartition(total, count);
    PositiveBlock(total, count, cpp);
    var r := c / cpp;
    DivBounds(c, cpp);
    RankBelowCount(total, count, cpp, c, r);
    r
  }

  /** A geometry with a cell has a nonzero block size. */
  lemma PositiveBlock(total: nat, count: int, cpp: nat)
    requires count > 0 && 0 < total <= cpp * count
    ensures cpp > 0
  {
    if cpp == 0 {
      assert false;
    }
  }

  /** Euclidean division by a positive block size locates c within its block. */
  lemma DivBounds(c: nat, cpp: nat)
    requires cpp > 0
    ensures 0 <= c / cpp && cpp * (c / cpp) <= c < cpp * (c / cpp) + cpp
  {
    assert c == cpp * (c / cpp) + c % cpp;
  }

  /** The block holding a cell below the total is one of the first `count`. */
  lemma RankBelowCount(total: nat, count: int, cpp: nat, c: nat, r: nat)
    requires count > 0 && total <= cpp * count && c < total && cpp * r <= c
    ensures r < count
  {
    if r >= count {
      DenseIndexing.MulNonNegative(cpp, r - count);
      assert false;
    }
  }

  /** The ranks 0 .. count-1 cover exactly the cells 0 .. total-1, each cell by one rank. */
  lemma RanksCover(total: nat, count: int, c: int)
    requires count > 0
    ensures (0 <= c < total) <==>
      exists r :: 0 <= r < count && CellInclusionTest(LinearCellArg(total, r, count), c)
    ensures 0 <= c < total ==>
      (forall r :: CellInclusionTest(LinearCellArg(total, r, count), c) ==> r == OwnerRank(total, count, c))
  {
    if 0 <= c < total {
      var o := OwnerRank(total, count, c);
      assert CellInclusionTest(LinearCellArg(total, o, count), c);
      forall r | CellInclusionTest(LinearCellArg(total, r, count), c)
        ensures r == o
      {
        if r != o {
          RanksDisjoint(total, count, r, o, c);
        }
      }
    }
  }

  /** Sum of the cell counts of ranks 0 .. k-1. */
  function OwnedCells(total: nat, count: int, k: nat): nat
    requires count > 0
  {
    if k == 0 then 0 else OwnedCells(total, count, k - 1) + CellCount(LinearCellArg(total, k - 1, count))
  }

  /** Ranks 0 .. k-1 together own min(cpp * k, total) cells. */
  lemma {:induction false} OwnedCellsPrefix(total: nat, count: int, k: nat)
    requires count > 0
    ensures OwnedCells(total, count, k) == Min(CellsPerPartition(total, count) * k, total)
  {
    if k > 0 {
      OwnedCellsPrefix(total, count, k - 1);
      var cpp := CellsPerPartition(total, count);
      var lo := cpp * (k - 1);
      MulSucc(cpp, k);
      assert LinearCellArg(total, k - 1, count) == CellArg(lo, if lo + cpp <= total then lo + cpp else total);
      PrefixStep(lo, cpp, total);
    }
  }

  lemma MulSucc(a: nat, k: nat)
    requires k > 0
    ensures 0 <= a * (k - 1) && a * k == a * (k - 1) + a
  {
    DenseIndexing.MulNonNegative(a, k - 1);
  }

  /** Adding the range that starts at lo to the cells below lo gives the cells below lo + cpp. */
  lemma PrefixStep(lo: int, cpp: nat, total: nat)
    requires 0 <= lo
    ensures Min(lo, total) + CellCount(CellArg(lo, if lo + cpp <= total then lo + cpp else total))
         == Min(lo + cpp, total)
  {
  }

  function Min(a: int, b: int): int
  {
    if a <= b then a else b
  }

  /** The cell counts of all ranks add up to the number of cells of the geometry. */
  lemma CountsSumToTotal(total: nat, count: nat)
    requires count > 0
    ensures OwnedCells(total, count, count) == total
  {
    OwnedCellsPrefix(total, count, count);
  }

  /** The cell at the end of a rank's range is owned by the next rank, yet the as-written
      `partition_cell_index` maps it to a local index of this rank. */
  lemma PartitionCellIndexAcceptsCellEnd()
    ensures LinearCellArg(10, 0, 2) == CellArg(0, 5)
    ensures PartitionCellIndexAsWritten(LinearCellArg(10, 0, 2), 5) == 5
    ensures !CellInclusionTest(LinearCellArg(10, 0, 2), 5)
    ensures CellInclusionTest(LinearCellArg(10, 1, 2), 5)
    ensures PartitionCellIndex(LinearCellArg(10, 0, 2), 5) == NullElementIndex
  {
    assert CellsPerPartition(10, 2) == 5;
  }

  /** With five cells over four ranks the last rank's range [6, 5) is empty, the as-written
      count is negative and the counts of all ranks no longer add up to the total. */
  lemma CellCountAsWrittenNegative()
    ensures LinearCellArg(5, 3, 4) == CellArg(6, 5)
    ensures CellCountAsWritten(LinearCellArg(5, 3, 4)) == -1
    ensures CellCountAsWritten(LinearCellArg(5, 0, 4)) + CellCountAsWritten(LinearCellArg(5, 1, 4))
          + CellCountAsWritten(LinearCellArg(5, 2, 4)) + CellCountAsWritten(LinearCellArg(5, 3, 4)) == 4
    ensures CellCount(LinearCellArg(5, 3, 4)) == 0
  {
    assert CellsPerPartition(5, 4) == 2;
  }

  // ---------------------------------------------------------------------------------------
  // Side classification
  // ---------------------------------------------------------------------------------------

  predicate IsBit(v: int)
  {
    v == 0 || v == 1
  }

  /** The three masks after the side-counting kernel: a side is a partition side when its
      inner cell is included, a boundary side when that cell is also its outer cell, and a
      frontier side when exactly one of its two cells is included. */
  ghost predicate SideMasks(geo: Geometry, included: int -> bool, p: seq<int>, b: seq<int>, f: seq<int>)
  {
    |p| == geo.sideCount && |b| == geo.sideCount && |f| == geo.sideCount &&
    forall s :: 0 <= s < geo.sideCount ==>
      IsBit(p[s]) && IsBit(b[s]) && IsBit(f[s]) &&
      (p[s] == 1 <==> included(geo.inner(s))) &&
      (b[s] == 1 <==> included(geo.inner(s)) && geo.inner(s) == geo.outer(s)) &&
      (f[s] == 1 <==> included(geo.inner(s)) != included(geo.outer(s)))
  }

  /** `compute_side_indices_from_cells` up to the index conversion: three zeroed masks, then
      `count_side_fn` for every side in turn. */
  method ComputeSideMasks(geo: Geometry, included: int -> bool)
    returns (partition: array<int>, boundary: array<int>, frontier: array<int>)
    ensures fresh(partition) && fresh(boundary) && fresh(frontier)
    ensures SideMasks(geo, included, partition[..], boundary[..], frontier[..])
  {
    partition := new int[geo.sideCount](_ => 0);
    boundary := new int[geo.sideCount](_ => 0);
    frontier := new int[geo.sideCount](_ => 0);
    for s := 0 to geo.sideCount
      invariant forall t :: 0 <= t < s ==>
        IsBit(partition[t]) && IsBit(boundary[t]) && IsBit(frontier[t]) &&
        (partition[t] == 1 <==> included(geo.inner(t))) &&
        (boundary[t] == 1 <==> included(geo.inner(t)) && geo.inner(t) == geo.outer(t)) &&
        (frontier[t] == 1 <==> included(geo.inner(t)) != included(geo.outer(t)))
      invariant forall t :: s <= t < geo.sideCount ==>
        partition[t] == 0 && boundary[t] == 0 && frontier[t] == 0
    {
      var innerCellIndex := geo.inner(s);
      var outerCellIndex := geo.outer(s);
      var innerIn := included(innerCellIndex);
      var outerIn := included(outerCellIndex);
      if innerIn {
        partition[s] := 1;
        if innerCellIndex == outerCellIndex {
          boundary[s] := 1;
        }
      }
      if innerIn != outerIn {
        frontier[s] := 1;
      }
    }
  }

  /** `masked_indices`: the positions holding 1, in increasing order. */
  function MaskedIndices(mask: seq<int>): (r: seq<nat>)
    ensures forall k :: 0 <= k < |r| ==> r[k] < |mask| && mask[r[k]] == 1
    ensures forall i :: 0 <= i < |mask| && mask[i] == 1 ==> i in r
    ensures forall k, l :: 0 <= k < l < |r| ==> r[k] < r[l]
    decreases |mask|
  {
    if |mask| == 0 then []
    else
      var n := |mask| - 1;
      var front := MaskedIndices(mask[..n]);
      MaskedExtend(mask, front);
      front + (if mask[n] == 1 then [n] else [])
  }

  /** The listing of a mask's prefix, followed by the last position when it is marked, lists
      the whole mask. */
  lemma MaskedExtend(mask: seq<int>, front: seq<nat>)
    requires |mask| > 0
    requires forall k :: 0 <= k < |front| ==> front[k] < |mask| - 1 && mask[..|mask| - 1][front[k]] == 1
    requires forall i :: 0 <= i < |mask| - 1 && mask[..|mask| - 1][i] == 1 ==> i in front
    requires forall k, l :: 0 <= k < l < |front| ==> front[k] < front[l]
    ensures var r := front + (if mask[|mask| - 1] == 1 then [|mask| - 1] else []);
      (forall k :: 0 <= k < |r| ==> r[k] < |mask| && mask[r[k]] == 1)
      && (forall i :: 0 <= i < |mask| && mask[i] == 1 ==> i in r)
      && (forall k, l :: 0 <= k < l < |r| ==> r[k] < r[l])
  {
    var n := |mask| - 1;
    var r := front + (if mask[n] == 1 then [n] else []);
    assert forall k :: 0 <= k < |front| ==> r[k] == front[k] && mask[front[k]] == mask[..n][front[k]];
    forall i | 0 <= i < n && mask[i] == 1
      ensures i in r
    {
      assert mask[..n][i] == 1;
    }
  }

  /** A mask whose marks all carry over to a second mask marks no more positions. */
  lemma {:induction false} FewerMarks(a: seq<int>, b: seq<int>)
    requires |a| == |b|
    requires forall s :: 0 <= s < |a| && a[s] == 1 ==> b[s] == 1
    ensures |MaskedIndices(a)| <= |MaskedIndices(b)|
  {
    if |a| > 0 {
      var n := |a| - 1;
      FewerMarks(a[..n], b[..n]);
    }
  }

  /** A mask marked everywhere lists every position. */
  lemma {:induction false} FullMask(mask: seq<int>)
    requires forall s :: 0 <= s < |mask| ==> mask[s] == 1
    ensures |MaskedIndices(mask)| == |mask|
    ensures forall k :: 0 <= k < |mask| ==> MaskedIndices(mask)[k] == k
  {
    if |mask| > 0 {
      FullMask(mask[..|mask| - 1]);
    }
  }

  /** A mask without a mark lists no position. */
  lemma UnmarkedMask(mask: seq<int>)
    requires forall s :: 0 <= s < |mask| ==> mask[s] != 1
    ensures MaskedIndices(mask) == []
  {
  }

  /** Every boundary side is a partition side and never a frontier side, so there are no
      more boundary sides than partition sides. */
  lemma BoundarySidesArePartitionSides(geo: Geometry, included: int -> bool, p: seq<int>, b: seq<int>, f: seq<int>)
    requires SideMasks(geo, included, p, b, f)
    ensures forall s :: s in MaskedIndices(b) ==> s in MaskedIndices(p) && s !in MaskedIndices(f)
    ensures |MaskedIndices(b)| <= |MaskedIndices(p)|
  {
    forall s | s in MaskedIndices(b)
      ensures s in MaskedIndices(p) && s !in MaskedIndices(f)
    {
      var k :| 0 <= k < |MaskedIndices(b)| && MaskedIndices(b)[k] == s;
      if s in MaskedIndices(f) {
        assert false;
      }
    }
    FewerMarks(b, p);
  }

  /** The linear partition's sides: the inclusion test the kernel is given. */
  function LinearIncluded(arg: CellArg): int -> bool
  {
    (c: int) => CellInclusionTest(arg, c)
  }

  /** `LinearGeometryPartition`: the range of cells a rank owns and the side lists derived
      from it. */
  class LinearGeometryPartition {
    var cellBegin: int
    var cellEnd: int
    var partitionSideIndices: seq<nat>
    var boundarySideIndices: seq<nat>
    var frontierSideIndices: seq<nat>

    function Arg(): CellArg
      reads this
    {
      CellArg(cellBegin, cellEnd)
    }

    /** The range of rank `partitionRank` among `partitionCount` ranks, then the side lists
        of that range. */
    constructor (geo: Geometry, partitionRank: int, partitionCount: int)
      requires partitionCount > 0
      ensures Arg() == LinearCellArg(geo.cellCount, partitionRank, partitionCount)
      ensures exists p, b, f ::
        (SideMasks(geo, LinearIncluded(Arg()), p, b, f)
         && partitionSideIndices == MaskedIndices(p)
         && boundarySideIndices == MaskedIndices(b)
         && frontierSideIndices == MaskedIndices(f))
    {
      var arg := LinearCellArg(geo.cellCount, partitionRank, partitionCount);
      cellBegin := arg.cellBegin;
      cellEnd := arg.cellEnd;
      new;
      var partition, boundary, frontier := ComputeSideMasks(geo, LinearIncluded(arg));
      partitionSideIndices := MaskedIndices(partition[..]);
      boundarySideIndices := MaskedIndices(boundary[..]);
      frontierSideIndices := MaskedIndices(frontier[..]);
    }
  }

  // ---------------------------------------------------------------------------------------
  // Explicit and whole partitions
  // ---------------------------------------------------------------------------------------

  /** `ExplicitGeometryPartition._cell_inclusion_test`: the cell's mask entry is positive. */
  predicate ExplicitCellInclusionTest(mask: seq<int>, cellIndex: int): (b: bool)
    requires 0 <= cellIndex < |mask|
    ensures IsBit(mask[cellIndex]) ==> (b <==> mask[cellIndex] == 1)
  {
    mask[cellIndex] > 0
  }

  /** For a 0/1 cell mask, the explicit inclusion test holds exactly for the cells the
      partition lists (`masked_indices` of the mask). */
  lemma ExplicitInclusionMatchesCells(mask: seq<int>, c: int)
    requires forall i :: 0 <= i < |mask| ==> IsBit(mask[i])
    requires 0 <= c < |mask|
    ensures ExplicitCellInclusionTest(mask, c) <==> c in MaskedIndices(mask)
  {
    if c in MaskedIndices(mask) {
      var k :| 0 <= k < |MaskedIndices(mask)| && MaskedIndices(mask)[k] == c;
    }
  }

  /** `_identity_element_index`: every index maps to itself. */
  function IdentityElementIndex(idx: int): (r: int)
    ensures r == idx
  {
    idx
  }

  /** `WholeGeometryPartition.frontier_side_count`: a whole partition has no frontier. */
  function WholeFrontierSideCount(geo: Geometry): (r: nat)
    ensures r == 0
  {
    0
  }

  /** `WholeGeometryPartition.cell_count`: the geometry's cells, which is the cell count of
      the only rank of a one-rank linear partition. */
  function WholeCellCount(geo: Geometry): (r: nat)
    ensures r == CellCount(LinearCellArg(geo.cellCount, 0, 1))
  {
    assert CellsPerPartition(geo.cellCount, 1) == geo.cellCount;
    geo.cellCount
  }

  /** The whole partition is the linear partition with a single rank: same cell count, and
      its identity cell maps agree with that rank's maps on every cell. */
  lemma WholeIsSingleLinearPartition(geo: Geometry)
    ensures LinearCellArg(geo.cellCount, 0, 1) == CellArg(0, geo.cellCount)
    ensures CellCount(LinearCellArg(geo.cellCount, 0, 1)) == WholeCellCount(geo)
    ensures forall c :: 0 <= c < geo.cellCount ==>
      PartitionCellIndex(LinearCellArg(geo.cellCount, 0, 1), c) == IdentityElementIndex(c)
      && CellIndex(LinearCellArg(geo.cellCount, 0, 1), c) == IdentityElementIndex(c)
  {
    assert CellsPerPartition(geo.cellCount, 1) == geo.cellCount;
  }

  /** When every side's cells are cells of the geometry, the single-rank partition lists
      every side in order (its side map is the identity) and has no frontier side, as
      the whole partition reports. */
  lemma WholeHasNoFrontier(geo: Geometry, p: seq<int>, b: seq<int>, f: seq<int>)
    requires forall s :: 0 <= s < geo.sideCount ==>
      0 <= geo.inner(s) < geo.cellCount && 0 <= geo.outer(s) < geo.cellCount
    requires SideMasks(geo, LinearIncluded(LinearCellArg(geo.cellCount, 0, 1)), p, b, f)
    ensures |MaskedIndices(f)| == WholeFrontierSideCount(geo)
    ensures |MaskedIndices(p)| == geo.sideCount
    ensures forall k :: 0 <= k < geo.sideCount ==> MaskedIndices(p)[k] == IdentityElementIndex(k)
  {
    WholeIsSingleLinearPartition(geo);
    FullMask(p);
    assert forall s :: 0 <= s < geo.sideCount ==> f[s] == 0;
    UnmarkedMask(f);
  }
}
