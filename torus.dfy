/**
 * The integer bookkeeping of `gen_torus`: the subdivision counts, the
 * (usub + 1) x (vsub + 1) grid of vertices stored row by row, and the index
 * array that covers every cell of the grid except the seam row and column
 * with two triangles.  A vertex is modelled by its grid slot (i, j); its
 * position, normal and texture coordinates are floating point and are not
 * part of this model.
 */
module Torus {
  import opened CTypes
  import opened RowMajor
  import Heap

  /** Fewer subdivisions than this are raised to it. */
  const MIN_SUBDIVISIONS: nat := 3
  /** Each grid cell is drawn as two triangles: six indices. */
  const INDICES_PER_CELL: nat := 6

  /** A vertex, identified by its row i (around the ring) and column j (around the tube). */
  datatype GridVertex = GridVertex(i: nat, j: nat)

  /** The subdivision count actually used: the smallest value that is at least n and at least 3. */
  function Clamp(n: int): (r: nat)
    ensures r >= MIN_SUBDIVISIONS && r >= n
    ensures r == n || r == MIN_SUBDIVISIONS
  {
    if n < MIN_SUBDIVISIONS then MIN_SUBDIVISIONS else n
  }

  /**
   * Number of vertices: one more row and one more column than there are
   * cells, so one past the flat position of the last slot (usub, vsub).
   */
  function VertexCount(usub: nat, vsub: nat): (n: nat)
    ensures n == Flat(usub, vsub, vsub + 1) + 1
  {
    (usub + 1) * (vsub + 1)
  }

  /**
   * Number of indices: two triangles per cell, so six past the first index
   * of the last cell (usub - 1, vsub - 1), and none without cells.
   */
  function IndexCount(usub: nat, vsub: nat): (n: nat)
    ensures usub > 0 && vsub > 0 ==> n == INDICES_PER_CELL * Flat(usub - 1, vsub - 1, vsub) + INDICES_PER_CELL
    ensures usub == 0 || vsub == 0 ==> n == 0
  {
    usub * vsub * INDICES_PER_CELL
  }

  /** None of the C `int` products of the counts overflows. */
  predicate CountsFit(usub: nat, vsub: nat) {
    IsCInt(usub + 1) && IsCInt(vsub + 1) && IsCInt(VertexCount(usub, vsub)) && IsCInt(IndexCount(usub, vsub))
  }

  /** The grid slot of the vertex stored at flat position k, rows holding vsub + 1 vertices. */
  function VertexAt(vsub: nat, k: nat): GridVertex {
    GridVertex(k / (vsub + 1), k % (vsub + 1))
  }

  /**
   * Offset, from the lower-left vertex of a cell, of corner c of its two
   * triangles: (lower-left, upper-right, lower-right) and then
   * (lower-left, upper-left, upper-right), rows being `stride` apart.
   */
  function Corner(stride: nat, c: nat): nat
    requires c < INDICES_PER_CELL
  {
    [0, stride + 1, 1, 0, stride, stride + 1][c]
  }

  /** Index c of the cell whose lower-left vertex is in slot (i, j). */
  function CellIndex(vsub: nat, i: nat, j: nat, c: nat): nat
    requires c < INDICES_PER_CELL
  {
    Flat(i, j, vsub + 1) + Corner(vsub + 1, c)
  }

  /** The index stored at position p of the finished index array: cells in row-major order, six indices each. */
  function IndexAt(vsub: nat, p: nat): nat
    requires vsub > 0
  {
    var cell := p / INDICES_PER_CELL;
    CellIndex(vsub, cell / vsub, cell % vsub, p % INDICES_PER_CELL)
  }

  /** The finished vertex array. */
  function GridVertices(usub: nat, vsub: nat): (s: seq<GridVertex>)
    ensures |s| == VertexCount(usub, vsub)
  {
    seq(VertexCount(usub, vsub), k requires 0 <= k => VertexAt(vsub, k))
  }

  /** The finished index array. */
  function TorusIndices(usub: nat, vsub: nat): (s: seq<int>)
    requires vsub > 0
    ensures |s| == IndexCount(usub, vsub)
  {
    seq(IndexCount(usub, vsub), p requires 0 <= p => IndexAt(vsub, p))
  }

  // ---------------------------------------------------------------------------
  // The vertex grid

  /** Every grid slot (i, j) with i <= usub and j <= vsub is stored once, at position i * (vsub + 1) + j. */
  lemma {:induction false} SlotStoredAt(usub: nat, vsub: nat, i: nat, j: nat)
    requires i <= usub && j <= vsub
    ensures Flat(i, j, vsub + 1) < VertexCount(usub, vsub)
    ensures VertexAt(vsub, Flat(i, j, vsub + 1)) == GridVertex(i, j)
  {
    FlatBelow(i, j, vsub + 1, usub + 1);
    FlatDivMod(i, j, vsub + 1);
  }

  /** Every stored vertex is a slot of the grid, and its slot leads back to its position. */
  lemma {:induction false} StoredVertexIsSlot(usub: nat, vsub: nat, k: nat)
    requires k < VertexCount(usub, vsub)
    ensures VertexAt(vsub, k).i <= usub && VertexAt(vsub, k).j <= vsub
    ensures Flat(VertexAt(vsub, k).i, VertexAt(vsub, k).j, vsub + 1) == k
  {
    SplitFlat(k, vsub + 1, usub + 1);
  }

  // ---------------------------------------------------------------------------
  // The index array

  /** Every corner of a non-seam cell is a vertex of the grid. */
  lemma {:induction false} CornersInGrid(usub: nat, vsub: nat, i: nat, j: nat, c: nat)
    requires i < usub && j < vsub && c < INDICES_PER_CELL
    ensures CellIndex(vsub, i, j, c) <= Flat(i + 1, j + 1, vsub + 1) < VertexCount(usub, vsub)
  {
    SlotStoredAt(usub, vsub, i + 1, j + 1);
  }

  /**
   * The six indices of cell (i, j), for i < usub and j < vsub, sit at
   * positions 6 * (i * vsub + j) to 6 * (i * vsub + j) + 5 of the index array.
   */
  lemma {:induction false} CellLayout(usub: nat, vsub: nat, i: nat, j: nat, c: nat)
    requires i < usub && j < vsub && c < INDICES_PER_CELL
    ensures INDICES_PER_CELL * Flat(i, j, vsub) + c < IndexCount(usub, vsub)
    ensures IndexAt(vsub, INDICES_PER_CELL * Flat(i, j, vsub) + c) == CellIndex(vsub, i, j, c)
  {
    var cell := Flat(i, j, vsub);
    FlatBelow(i, j, vsub, usub);
    FlatBelow(cell, c, INDICES_PER_CELL, usub * vsub);
    assert INDICES_PER_CELL * cell + c == Flat(cell, c, INDICES_PER_CELL);
    FlatDivMod(cell, c, INDICES_PER_CELL);
    FlatDivMod(i, j, vsub);
  }

  /**
   * Every position of the index array belongs to a cell (i, j) with i < usub
   * and j < vsub: the seam row i == usub and the seam column j == vsub
   * contribute no triangles.
   */
  lemma {:induction false} PositionInCell(usub: nat, vsub: nat, p: nat)
    requires p < IndexCount(usub, vsub)
    ensures vsub > 0
    ensures (p / INDICES_PER_CELL) / vsub < usub && (p / INDICES_PER_CELL) % vsub < vsub
    ensures p == INDICES_PER_CELL * Flat((p / INDICES_PER_CELL) / vsub, (p / INDICES_PER_CELL) % vsub, vsub) + p % INDICES_PER_CELL
  {
    var cells := usub * vsub;
    assert IndexCount(usub, vsub) == cells * INDICES_PER_CELL;
    SplitFlat(p, INDICES_PER_CELL, cells);
    var cell := p / INDICES_PER_CELL;
    SplitFlat(cell, vsub, usub);
  }

  /** No index refers past the end of the vertex array. */
  lemma {:induction false} IndicesInBounds(usub: nat, vsub: nat, p: nat)
    requires p < IndexCount(usub, vsub)
    ensures vsub > 0 && IndexAt(vsub, p) < VertexCount(usub, vsub)
  {
    PositionInCell(usub, vsub, p);
    var cell := p / INDICES_PER_CELL;
    CornersInGrid(usub, vsub, cell / vsub, cell % vsub, p % INDICES_PER_CELL);
  }

  /** The largest index is the last vertex, reached by the second corner of the last cell. */
  lemma {:induction false} LastVertexIndexed(usub: nat, vsub: nat)
    requires usub > 0 && vsub > 0
    ensures IndexCount(usub, vsub) >= INDICES_PER_CELL
    ensures IndexAt(vsub, IndexCount(usub, vsub) - 5) == VertexCount(usub, vsub) - 1
  {
    var i, j := usub - 1, vsub - 1;
    CellLayout(usub, vsub, i, j, 1);
    FlatBelow(i, j, vsub, usub);
    assert Flat(i, j, vsub) + 1 == usub * vsub;
    assert INDICES_PER_CELL * Flat(i, j, vsub) + 1 == IndexCount(usub, vsub) - 5;
    assert VertexCount(usub, vsub) == Flat(usub, vsub, vsub + 1) + 1;
  }

  /** Signed doubled area of triangle (a, b, c) in the (i, j) plane of the grid. */
  function Orientation(a: GridVertex, b: GridVertex, c: GridVertex): int {
    (b.i - a.i) * (c.j - a.j) - (b.j - a.j) * (c.i - a.i)
  }

  /** The grid slot named by the index at position p of the finished index array. */
  function ReadBack(vsub: nat, p: nat): GridVertex
    requires vsub > 0
  {
    VertexAt(vsub, IndexAt(vsub, p))
  }

  /** The grid slot of corner c of cell (i, j), in the order the indices are emitted. */
  function CornerSlot(i: nat, j: nat, c: nat): GridVertex
    requires c < INDICES_PER_CELL
  {
    [GridVertex(i, j), GridVertex(i + 1, j + 1), GridVertex(i, j + 1),
     GridVertex(i, j), GridVertex(i + 1, j), GridVertex(i + 1, j + 1)][c]
  }

  /** The index at position 6 * (i * vsub + j) + c names corner c of cell (i, j). */
  lemma {:induction false} ReadBackCorner(usub: nat, vsub: nat, i: nat, j: nat, c: nat)
    requires i < usub && j < vsub && c < INDICES_PER_CELL
    ensures ReadBack(vsub, INDICES_PER_CELL * Flat(i, j, vsub) + c) == CornerSlot(i, j, c)
  {
    CellLayout(usub, vsub, i, j, c);
    FlatNeighbours(i, j, vsub + 1);
    var slot := CornerSlot(i, j, c);
    assert CellIndex(vsub, i, j, c) == Flat(slot.i, slot.j, vsub + 1);
    SlotStoredAt(usub, vsub, slot.i, slot.j);
  }

  /**
   * Read back from the index array, the two triangles of cell (i, j) are
   * (i, j) (i+1, j+1) (i, j+1) and (i, j) (i+1, j) (i+1, j+1): they share the
   * diagonal from (i, j) to (i+1, j+1) and together use the cell's four corners.
   */
  lemma {:induction false} CellTriangles(usub: nat, vsub: nat, i: nat, j: nat)
    requires i < usub && j < vsub
    ensures var b := INDICES_PER_CELL * Flat(i, j, vsub);
      && ReadBack(vsub, b) == GridVertex(i, j)
      && ReadBack(vsub, b + 1) == GridVertex(i + 1, j + 1)
      && ReadBack(vsub, b + 2) == GridVertex(i, j + 1)
      && ReadBack(vsub, b + 3) == GridVertex(i, j)
      && ReadBack(vsub, b + 4) == GridVertex(i + 1, j)
      && ReadBack(vsub, b + 5) == GridVertex(i + 1, j + 1)
  {
    ReadBackCorner(usub, vsub, i, j, 0);
    ReadBackCorner(usub, vsub, i, j, 1);
    ReadBackCorner(usub, vsub, i, j, 2);
    ReadBackCorner(usub, vsub, i, j, 3);
    ReadBackCorner(usub, vsub, i, j, 4);
    ReadBackCorner(usub, vsub, i, j, 5);
  }

  /**
   * Both triangles of every cell are wound the same way round in the (i, j)
   * plane of the grid, and neither is degenerate.
   */
  lemma {:induction false} ConsistentWinding(usub: nat, vsub: nat, i: nat, j: nat)
    requires i < usub && j < vsub
    ensures var b := INDICES_PER_CELL * Flat(i, j, vsub);
      && Orientation(ReadBack(vsub, b), ReadBack(vsub, b + 1), ReadBack(vsub, b + 2)) == 1
      && Orientation(ReadBack(vsub, b + 3), ReadBack(vsub, b + 4), ReadBack(vsub, b + 5)) == 1
  {
    CellTriangles(usub, vsub, i, j);
    UnitCellOrientation(i, j);
  }

  /** The two halves of the unit square at (i, j), split along its diagonal, both have orientation 1. */
  lemma UnitCellOrientation(i: nat, j: nat)
    ensures Orientation(GridVertex(i, j), GridVertex(i + 1, j + 1), GridVertex(i, j + 1)) == 1
    ensures Orientation(GridVertex(i, j), GridVertex(i + 1, j), GridVertex(i + 1, j + 1)) == 1
  {
  }

  /** The numbers the program itself asks for: 32 x 12 subdivisions. */
  lemma DemoTorusCounts()
    ensures VertexCount(Clamp(32), Clamp(12)) == 429
    ensures IndexCount(Clamp(32), Clamp(12)) == 2304
    ensures CountsFit(Clamp(32), Clamp(12))
  {
  }

  // ---------------------------------------------------------------------------
  // Ring and tube parameters of a slot (exact real arithmetic)

  /**
   * The parameter of vertex row or column k as written: the step is computed
   * from the subdivision count before that count is clamped, and row or
   * column k sits at k times the step.  Rows use `du` from `usub` and
   * columns `dv` from `vsub`, computed the same way.  A zero count, a
   * floating-point division by zero, is outside this member.
   */
  function ParamAsWritten(subIn: int, k: nat): (t: real)
    requires subIn != 0
    ensures t * subIn as real == k as real
  {
    k as real * (1.0 / subIn as real)
  }

  /**
   * With two subdivisions the clamped grid has four rows (or columns), 0 to
   * 3, but the step is 1/2, so the last one sits one and a half turns after
   * the first: the seam of the torus does not close, in either direction.
   */
  lemma SeamOpenAsWritten()
    ensures Clamp(2) == 3
    ensures ParamAsWritten(2, Clamp(2)) - ParamAsWritten(2, 0) == 1.5
  {
  }

  /**
   * The ring and tube parameters (u, v) of a grid slot with the steps taken
   * from the clamped counts; the vertex position is the torus point at
   * angles 2 pi u and 2 pi v, and (u, v) is also its texture coordinate.
   */
  function SlotParams(usubIn: int, vsubIn: int, v: GridVertex): (uv: (real, real))
    ensures v.i <= Clamp(usubIn) && v.j <= Clamp(vsubIn) ==> 0.0 <= uv.0 <= 1.0 && 0.0 <= uv.1 <= 1.0
  {
    (v.i as real / Clamp(usubIn) as real, v.j as real / Clamp(vsubIn) as real)
  }

  /** For counts that need no clamping the steps as written give the same parameters. */
  lemma {:induction false} AsWrittenAgreesUnclamped(usubIn: int, vsubIn: int, v: GridVertex)
    ensures usubIn >= MIN_SUBDIVISIONS ==> ParamAsWritten(usubIn, v.i) == SlotParams(usubIn, vsubIn, v).0
    ensures vsubIn >= MIN_SUBDIVISIONS ==> ParamAsWritten(vsubIn, v.j) == SlotParams(usubIn, vsubIn, v).1
  {
    if usubIn >= MIN_SUBDIVISIONS {
      assert Clamp(usubIn) == usubIn;
    }
    if vsubIn >= MIN_SUBDIVISIONS {
      assert Clamp(vsubIn) == vsubIn;
    }
  }

  /**
   * The seam closes: the last row lies exactly one full turn after the
   * first, and the last column one full turn after the first, while both
   * keep the other parameter of their slot.
   */
  lemma {:induction false} SeamCloses(usubIn: int, vsubIn: int, i: nat, j: nat)
    ensures SlotParams(usubIn, vsubIn, GridVertex(Clamp(usubIn), j)).0
         == SlotParams(usubIn, vsubIn, GridVertex(0, j)).0 + 1.0
    ensures SlotParams(usubIn, vsubIn, GridVertex(Clamp(usubIn), j)).1
         == SlotParams(usubIn, vsubIn, GridVertex(0, j)).1
    ensures SlotParams(usubIn, vsubIn, GridVertex(i, Clamp(vsubIn))).1
         == SlotParams(usubIn, vsubIn, GridVertex(i, 0)).1 + 1.0
    ensures SlotParams(usubIn, vsubIn, GridVertex(i, Clamp(vsubIn))).0
         == SlotParams(usubIn, vsubIn, GridVertex(i, 0)).0
  {
    var rows, cols := Clamp(usubIn) as real, Clamp(vsubIn) as real;
    assert rows / rows == 1.0;
    assert cols / cols == 1.0;
  }

  // ---------------------------------------------------------------------------
  // Filling the arrays

  /** The first n vertices of `s` are those of the grid. */
  ghost predicate VerticesUpTo(s: seq<GridVertex>, vsub: nat, n: nat) {
    n <= |s| && forall k :: 0 <= k < n ==> s[k] == VertexAt(vsub, k)
  }

  /** The first n indices of `s` are those of the finished index array. */
  ghost predicate IndicesUpTo(s: seq<int>, vsub: nat, n: nat)
    requires vsub > 0
  {
    n <= |s| && forall p :: 0 <= p < n ==> s[p] == IndexAt(vsub, p)
  }

  /** Storing the vertex of slot (i, j) at its position extends a filled prefix by one. */
  lemma {:induction false} VertexStep(s: seq<GridVertex>, usub: nat, vsub: nat, i: nat, j: nat)
    requires i <= usub && j <= vsub && |s| == VertexCount(usub, vsub)
    requires VerticesUpTo(s, vsub, Flat(i, j, vsub + 1))
    ensures Flat(i, j, vsub + 1) < |s|
    ensures VerticesUpTo(s[Flat(i, j, vsub + 1) := GridVertex(i, j)], vsub, Flat(i, j, vsub + 1) + 1)
  {
    SlotStoredAt(usub, vsub, i, j);
  }

  /** Storing the six indices of cell (i, j) at its position b extends a filled prefix by one cell. */
  lemma {:induction false} CellStep(s: seq<int>, t: seq<int>, usub: nat, vsub: nat, i: nat, j: nat, b: nat)
    requires i < usub && j < vsub && |s| == |t| == IndexCount(usub, vsub)
    requires b + INDICES_PER_CELL <= |t|
    requires forall p :: 0 <= p < b ==> t[p] == s[p]
    requires forall p :: b <= p < b + INDICES_PER_CELL ==> t[p] == CellIndex(vsub, i, j, p - b)
    requires b == INDICES_PER_CELL * Flat(i, j, vsub)
    requires IndicesUpTo(s, vsub, b)
    ensures IndicesUpTo(t, vsub, b + INDICES_PER_CELL)
  {
    CellLayout(usub, vsub, i, j, INDICES_PER_CELL - 1);
    forall p | 0 <= p < b + INDICES_PER_CELL
      ensures t[p] == IndexAt(vsub, p)
    {
      if b <= p {
        CellLayout(usub, vsub, i, j, p - b);
      }
    }
  }

  /**
   * The body of the nested loop for a cell below the seam row and left of
   * the seam column: its six indices, stored through the advancing index
   * pointer, which moves on by six.
   */
  method EmitCell(iarr: array<UInt>, usub: nat, vsub: nat, i: nat, j: nat, iptr: nat) returns (next: nat)
    requires i < usub && j < vsub && CountsFit(usub, vsub)
    requires iarr.Length == IndexCount(usub, vsub)
    requires iptr == INDICES_PER_CELL * Flat(i, j, vsub)
    requires IndicesUpTo(iarr[..], vsub, iptr)
    modifies iarr
    ensures next == iptr + INDICES_PER_CELL
    ensures IndicesUpTo(iarr[..], vsub, next)
    ensures iarr[next..] == old(iarr[next..])
  {
    ghost var before := iarr[..];
    CellLayout(usub, vsub, i, j, INDICES_PER_CELL - 1);
    CornersInGrid(usub, vsub, i, j, 1);
    var vverts := vsub + 1;
    var vnum := i * vverts + j;
    next := iptr;
    iarr[next] := vnum;
    next := next + 1;
    iarr[next] := vnum + vverts + 1;
    next := next + 1;
    iarr[next] := vnum + 1;
    next := next + 1;
    iarr[next] := vnum;
    next := next + 1;
    iarr[next] := vnum + vverts;
    next := next + 1;
    iarr[next] := vnum + vverts + 1;
    next := next + 1;
    CellStep(before, iarr[..], usub, vsub, i, j, iptr);
  }

  /**
   * The nested loop of `gen_torus`: rows i <= usub, columns j <= vsub; each
   * slot stores one vertex through the advancing vertex pointer, and each
   * slot below the seam row and left of the seam column also stores its
   * cell's six indices through the advancing index pointer.  Both pointers
   * end exactly at the end of their arrays.
   */
  method EmitGrid(varr: array<GridVertex>, iarr: array<UInt>, usub: nat, vsub: nat)
    returns (vend: nat, iend: nat)
    requires usub > 0 && vsub > 0 && CountsFit(usub, vsub)
    requires varr.Length == VertexCount(usub, vsub) && iarr.Length == IndexCount(usub, vsub)
    modifies varr, iarr
    ensures vend == varr.Length && iend == iarr.Length
    ensures varr[..] == GridVertices(usub, vsub)
    ensures iarr[..] == TorusIndices(usub, vsub)
  {
    var uverts, vverts := usub + 1, vsub + 1;
    var vptr, iptr := 0, 0;
    var i := 0;
    while i < uverts
      invariant 0 <= i <= uverts
      invariant vptr == Flat(i, 0, vverts)
      invariant iptr == INDICES_PER_CELL * Flat(if i < usub then i else usub, 0, vsub)
      invariant VerticesUpTo(varr[..], vsub, vptr)
      invariant IndicesUpTo(iarr[..], vsub, iptr)
    {
      var j := 0;
      while j < vverts
        invariant 0 <= j <= vverts
        invariant vptr == Flat(i, j, vverts)
        invariant iptr == INDICES_PER_CELL * (if i < usub then Flat(i, if j < vsub then j else vsub, vsub) else Flat(usub, 0, vsub))
        invariant VerticesUpTo(varr[..], vsub, vptr)
        invariant IndicesUpTo(iarr[..], vsub, iptr)
      {
        VertexStep(varr[..], usub, vsub, i, j);
        varr[vptr] := GridVertex(i, j);
        vptr := vptr + 1;

        if i < usub && j < vsub {
          iptr := EmitCell(iarr, usub, vsub, i, j, iptr);
        }
        j := j + 1;
      }
      assert Flat(i, vverts, vverts) == Flat(i + 1, 0, vverts);
      assert Flat(i, vsub, vsub) == Flat(i + 1, 0, vsub);
      i := i + 1;
    }
    assert Flat(uverts, 0, vverts) == VertexCount(usub, vsub);
    assert INDICES_PER_CELL * Flat(usub, 0, vsub) == IndexCount(usub, vsub);
    vend, iend := vptr, iptr;
  }

  /** The mesh record that `gen_torus` fills in. */
  class Mesh {
    var varr: array?<GridVertex>
    var iarr: array?<UInt>
    var vcount: int
    var icount: int

    /** A mesh with no arrays, as a zero-initialised global starts out. */
    constructor ()
      ensures varr == null && iarr == null && vcount == 0 && icount == 0
    {
      varr, iarr := null, null;
      vcount, icount := 0, 0;
    }

    /**
     * `gen_torus` without its floating-point vertex data and its buffer
     * uploads.  `varrOk` and `iarrOk` are the outcomes of the two
     * allocations.  On success the result is 0 and the mesh owns two fresh
     * arrays holding the grid and its triangles; on either failure the
     * result is -1, no vertex array is kept and nothing stays allocated.
     */
    method GenTorus(heap: Heap.Allocator, usubIn: int, vsubIn: int, varrOk: bool, iarrOk: bool)
      returns (status: int)
      requires IsCInt(usubIn) && IsCInt(vsubIn)
      requires CountsFit(Clamp(usubIn), Clamp(vsubIn))
      modifies this, heap
      ensures vcount == VertexCount(Clamp(usubIn), Clamp(vsubIn))
      ensures icount == IndexCount(Clamp(usubIn), Clamp(vsubIn))
      ensures status == (if varrOk && iarrOk then 0 else -1)
      ensures !varrOk ==> varr == null && iarr == old(iarr) && heap.live == old(heap.live)
      ensures varrOk && !iarrOk ==> varr == null && iarr == null && heap.live == old(heap.live)
      ensures status == 0 ==>
        varr != null && iarr != null && fresh(varr) && fresh(iarr) &&
        heap.live == old(heap.live) + {varr as object, iarr as object} &&
        varr[..] == GridVertices(Clamp(usubIn), Clamp(vsubIn)) &&
        iarr[..] == TorusIndices(Clamp(usubIn), Clamp(vsubIn))
    {
      var usub, vsub := usubIn, vsubIn;
      if usub < MIN_SUBDIVISIONS { usub := MIN_SUBDIVISIONS; }
      if vsub < MIN_SUBDIVISIONS { vsub := MIN_SUBDIVISIONS; }

      var uverts, vverts := usub + 1, vsub + 1;
      var nverts := uverts * vverts;
      var nquads := usub * vsub;
      var ntri := nquads * 2;
      vcount := nverts;
      icount := ntri * 3;

      varr := heap.Malloc<GridVertex>(vcount, varrOk);
      if varr == null {
        return -1;
      }
      iarr := heap.Malloc<UInt>(icount, iarrOk);
      if iarr == null {
        heap.Free(varr);
        varr := null;
        return -1;
      }
      var vend, iend := EmitGrid(varr, iarr, usub, vsub);
      status := 0;
    }
  }
}
