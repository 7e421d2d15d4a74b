// chi_mesh::OrthogonalMeshGenerator: validates one to three strictly
// increasing node sets and builds the unpartitioned 1D (slab), 2D
// (quadrilateral) or 3D (hexahedral) orthogonal mesh over them, numbering
// vertices and cells row-major. Every face on the domain edge gets the id of
// the boundary it lies on. An interior face gets the id of the cell across
// it, except in the 2D generator as written, whose x-direction tests use the
// row index and leave some interior faces with the placeholder 1.
module OrthoMesh {
  import opened Wrappers
  import opened MeshTypes

  // ---------------------------------------------------------------------
  // Row-major numbering arithmetic

  lemma MulLeMono(a: nat, b: nat, w: nat)
    requires a <= b
    ensures a * w <= b * w
  {
  }

  /** A row-major id i*w + j with j < w decodes back to (i, j). */
  lemma DivModRowMajor(i: nat, j: nat, w: nat)
    requires j < w
    ensures (i * w + j) / w == i && (i * w + j) % w == j
  {
    var n := i * w + j;
    var q := n / w;
    var r := n % w;
    assert n == q * w + r;
    if q < i {
      MulLeMono(q + 1, i, w);
      assert false;
    } else if q > i {
      MulLeMono(i + 1, q, w);
      assert false;
    }
  }

  /** Row i < a of a row-major numbering with rows of width w stays below a*w. */
  lemma RowMajorBound(i: nat, j: nat, w: nat, a: nat)
    requires i < a && j < w
    ensures i * w + j < a * w
  {
    MulLeMono(i + 1, a, w);
  }

  /** An id below a*w decodes to a row below a. */
  lemma DivBound(n: nat, w: nat, a: nat)
    requires 0 < w && n < a * w
    ensures n / w < a && n % w < w
  {
    var q := n / w;
    assert n == q * w + n % w;
    if q >= a {
      MulLeMono(a, q, w);
      assert false;
    }
  }

  // ---------------------------------------------------------------------
  // Node-set validation (the constructor)

  /** Each value strictly exceeds the one before it; this is the test the
    * constructor's scan performs. */
  predicate AdjacentIncreasing(s: seq<real>)
  {
    forall k :: 0 < k < |s| ==> s[k - 1] < s[k]
  }

  predicate StrictlyIncreasing(s: seq<real>)
  {
    forall a, b :: 0 <= a < b < |s| ==> s[a] < s[b]
  }

  lemma {:induction false} AdjacentIncreasingIsSorted(s: seq<real>)
    requires AdjacentIncreasing(s)
    ensures StrictlyIncreasing(s)
  {
    if |s| > 1 {
      var t := s[..|s| - 1];
      assert AdjacentIncreasing(t) by {
        forall k | 0 < k < |t| ensures t[k - 1] < t[k] {
          assert t[k - 1] == s[k - 1] && t[k] == s[k];
        }
      }
      AdjacentIncreasingIsSorted(t);
      forall a, b | 0 <= a < b < |s| ensures s[a] < s[b] {
        if b < |s| - 1 {
          assert s[a] == t[a] && s[b] == t[b];
        } else if a < |s| - 2 {
          assert s[a] == t[a] && s[|s| - 2] == t[|s| - 2];
          assert t[a] < t[|s| - 2];
        }
      }
    }
  }

  /** What the constructor accepts: one to three node sets, each with at
    * least two nodes, each strictly increasing. */
  predicate ValidNodeSets(nodeSets: seq<seq<real>>)
  {
    1 <= |nodeSets| <= 3 &&
    (forall s :: 0 <= s < |nodeSets| ==> |nodeSets[s]| >= 2) &&
    (forall s :: 0 <= s < |nodeSets| ==> AdjacentIncreasing(nodeSets[s]))
  }

  datatype OrthogonalMeshGenerator = OrthogonalMeshGenerator(nodeSets: seq<seq<real>>)

  /** The scan for a value that does not exceed its predecessor. */
  method IsMonotonic(nodeSet: seq<real>) returns (monotonic: bool)
    requires |nodeSet| > 0
    ensures monotonic <==> AdjacentIncreasing(nodeSet)
  {
    monotonic := true;
    var prev := nodeSet[0];
    var k := 1;
    while k < |nodeSet|
      invariant 1 <= k <= |nodeSet|
      invariant prev == nodeSet[k - 1]
      invariant monotonic && forall m :: 0 < m < k ==> nodeSet[m - 1] < nodeSet[m]
    {
      if nodeSet[k] <= prev {
        monotonic := false;
        return;
      }
      prev := nodeSet[k];
      k := k + 1;
    }
  }

  /** The constructor: every rejection is an invalid_argument. */
  method NewOrthogonalMeshGenerator(nodeSets: seq<seq<real>>) returns (r: Result<OrthogonalMeshGenerator>)
    ensures r.Success? <==> ValidNodeSets(nodeSets)
    ensures r.Success? ==> r.value.nodeSets == nodeSets
    ensures r.Failure? ==> r.error == InvalidArgument
  {
    if |nodeSets| == 0 || |nodeSets| > 3 {
      return Failure(InvalidArgument);
    }
    for ns := 0 to |nodeSets|
      invariant forall s :: 0 <= s < ns ==> |nodeSets[s]| >= 2
    {
      if |nodeSets[ns]| < 2 {
        return Failure(InvalidArgument);
      }
    }
    for setNumber := 0 to |nodeSets|
      invariant forall s :: 0 <= s < setNumber ==> AdjacentIncreasing(nodeSets[s])
    {
      var monotonic := IsMonotonic(nodeSets[setNumber]);
      if !monotonic {
        return Failure(InvalidArgument);
      }
    }
    return Success(OrthogonalMeshGenerator(nodeSets));
  }

  // ---------------------------------------------------------------------
  // The unpartitioned mesh

  datatype UnpartitionedMesh = UnpartitionedMesh(
    attributes: set<MeshAttribute>,
    orthoNx: nat, orthoNy: nat, orthoNz: nat,
    boundaryIdMap: map<nat, string>,
    vertices: seq<Point>,
    cells: seq<Cell>)

  /** The value a light-weight face's has_neighbor holds until the generator
    * assigns it (the declaration of LightWeightFace is not part of this
    * model; false is the default assumed). */
  const DefaultHasNeighbor := false

  /** Boundary ids, as the face order of a hexahedron. */
  const XMax: nat := 0
  const XMin: nat := 1
  const YMax: nat := 2
  const YMin: nat := 3
  const ZMax: nat := 4
  const ZMin: nat := 5

  // ---------------------------------------------------------------------
  // 1D: slabs along z

  /** Slab c of a line of nz nodes: vertices c and c+1, the left face towards
    * cell c-1 (or ZMIN), the right face towards cell c+1 (or ZMAX). */
  function SlabCell(c: nat, nz: nat): Cell
  {
    var maxCz := nz - 2;
    var left := if c == 0 then Face([c], ZMin, false) else Face([c], c - 1, true);
    var right := if c == maxCz then Face([c + 1], ZMax, false) else Face([c + 1], c + 1, true);
    Cell(Slab, Slab, [c, c + 1], [left, right])
  }

  method CreateUnpartitioned1DOrthoMesh(zs: seq<real>) returns (m: UnpartitionedMesh)
    requires |zs| >= 2
    ensures m.attributes == {Dimension1, Orthogonal}
    ensures m.orthoNx == 1 && m.orthoNy == 1 && m.orthoNz == |zs| - 1
    ensures m.boundaryIdMap == map[ZMax := "ZMAX", ZMin := "ZMIN"]
    ensures |m.vertices| == |zs| && forall k :: 0 <= k < |zs| ==> m.vertices[k] == Point(0.0, 0.0, zs[k])
    ensures |m.cells| == |zs| - 1 && forall c :: 0 <= c < |m.cells| ==> m.cells[c] == SlabCell(c, |zs|)
  {
    var zverts: seq<Point> := [];
    for k := 0 to |zs|
      invariant |zverts| == k && forall k' :: 0 <= k' < k ==> zverts[k'] == Point(0.0, 0.0, zs[k'])
    {
      zverts := zverts + [Point(0.0, 0.0, zs[k])];
    }
    var nz := |zs|;
    var maxCz := nz - 2;
    var cells: seq<Cell> := [];
    for c := 0 to nz - 1
      invariant |cells| == c && forall c' :: 0 <= c' < c ==> cells[c'] == SlabCell(c', nz)
    {
      // c - 1 wraps around at c = 0 in the source; that value is replaced below
      var left := Face([c], if c == 0 then 0 else c - 1, true);
      var right := Face([c + 1], c + 1, true);
      if c == 0 {
        left := left.(neighbor := ZMin, hasNeighbor := false);
      }
      if c == maxCz {
        right := right.(neighbor := ZMax, hasNeighbor := false);
      }
      cells := cells + [Cell(Slab, Slab, [c, c + 1], [left, right])];
    }
    m := UnpartitionedMesh({Dimension1, Orthogonal}, 1, 1, nz - 1,
                           map[ZMax := "ZMAX", ZMin := "ZMIN"], zverts, cells);
  }

  /** In 1D a face lacks a neighbour exactly at the two ends of the line, where
    * it carries ZMIN (the first node) or ZMAX (the last node). */
  lemma SlabBoundary(c: nat, nz: nat, f: nat)
    requires c < nz - 1 && f < 2
    ensures var face := SlabCell(c, nz).faces[f];
      |face.vertexIds| == 1 &&
      (!face.hasNeighbor <==> face.vertexIds[0] == 0 || face.vertexIds[0] == nz - 1) &&
      (face.vertexIds[0] == 0 ==> face.neighbor == ZMin) &&
      (face.vertexIds[0] == nz - 1 ==> face.neighbor == ZMax)
  {
  }

  /** The 1D mesh's neighbour links are mutual and every boundary face carries
    * a named boundary id. */
  lemma SlabMeshConsistent(zs: seq<real>, m: UnpartitionedMesh)
    requires |zs| >= 2
    requires m.boundaryIdMap == map[ZMax := "ZMAX", ZMin := "ZMIN"]
    requires |m.cells| == |zs| - 1 && forall c :: 0 <= c < |m.cells| ==> m.cells[c] == SlabCell(c, |zs|)
    ensures NeighboursReciprocal(m.cells)
    ensures BoundaryFacesNamed(m.cells, m.boundaryIdMap)
  {
    var nz := |zs|;
    forall c, f | 0 <= c < |m.cells| && 0 <= f < |m.cells[c].faces| && m.cells[c].faces[f].hasNeighbor
      ensures m.cells[c].faces[f].neighbor < |m.cells| &&
              HasMatchingFace(m.cells[m.cells[c].faces[f].neighbor], c, m.cells[c].faces[f].vertexIds)
    {
      if f == 0 {
        var n := c - 1;
        assert m.cells[n] == SlabCell(n, nz);
        assert m.cells[n].faces[1] == Face([c], c, true);
      } else {
        var n := c + 1;
        assert m.cells[n] == SlabCell(n, nz);
        assert m.cells[n].faces[0] == Face([c + 1], c, true);
      }
    }
  }

  // ---------------------------------------------------------------------
  // 2D: quadrilaterals over an x-by-y grid (row i runs along y, column j
  // along x)

  /** vertex_ij_to_i_map: the counter value at (i, j) of the row-major scan. */
  function VertexId2(i: nat, j: nat, nx: nat): nat
  {
    i * nx + j
  }

  /** cells_ij_to_i_map, likewise over nx - 1 cells per row. */
  function CellId2(i: nat, j: nat, nx: nat): nat
    requires nx >= 1
  {
    i * (nx - 1) + j
  }

  /** Corners 0-3 counter-clockwise from the lower left. */
  function QuadVertexIds(i: nat, j: nat, nx: nat): (r: seq<nat>)
    ensures |r| == 4
  {
    [VertexId2(i, j, nx), VertexId2(i, j + 1, nx), VertexId2(i + 1, j + 1, nx), VertexId2(i + 1, j, nx)]
  }

  /** Face v joins corner v to the next corner, wrapping 3 back to 0, so face
    * 0 is the bottom, 1 the right, 2 the top and 3 the left side. */
  function QuadFaceIds(vids: seq<nat>, v: nat): seq<nat>
    requires |vids| == 4 && v < 4
  {
    if v < 3 then [vids[v], vids[v + 1]] else [vids[v], vids[0]]
  }

  /** Face v of cell (i, j) exactly as the generator assigns it: the neighbour
    * starts as the integer value of `true`, the x-direction interior tests
    * compare the row index i with the last column index, and the boundary
    * assignments come last. */
  function Face2DAsWritten(i: nat, j: nat, v: nat, nx: nat, ny: nat): Face
    requires nx >= 2 && ny >= 2 && v < 4
  {
    var maxJ := nx - 2;
    var maxI := ny - 2;
    var ids := QuadFaceIds(QuadVertexIds(i, j, nx), v);
    var n0: nat := 1;
    var n1 := if v == 1 && i != maxJ then CellId2(i, j + 1, nx) else n0;
    // at j = 0 the source reads before the start of the row; that value is
    // always replaced by the XMIN assignment below
    var n2 := if v == 3 && i != 0 then (if j > 0 then CellId2(i, j - 1, nx) else 0) else n1;
    var n3 := if v == 2 && i != maxI then CellId2(i + 1, j, nx) else n2;
    var n4 := if v == 0 && i != 0 then CellId2(i - 1, j, nx) else n3;
    if v == 1 && j == maxJ then Face(ids, XMax, false)
    else if v == 3 && j == 0 then Face(ids, XMin, false)
    else if v == 2 && i == maxI then Face(ids, YMax, false)
    else if v == 0 && i == 0 then Face(ids, YMin, false)
    else Face(ids, n4, DefaultHasNeighbor)
  }

  /** The x-direction interior tests on the column index, as the comments and
    * the 3D generator intend. */
  function Face2D(i: nat, j: nat, v: nat, nx: nat, ny: nat): Face
    requires nx >= 2 && ny >= 2 && v < 4
  {
    var maxJ := nx - 2;
    var maxI := ny - 2;
    var ids := QuadFaceIds(QuadVertexIds(i, j, nx), v);
    var n0: nat := 1;
    var n1 := if v == 1 && j != maxJ then CellId2(i, j + 1, nx) else n0;
    var n2 := if v == 3 && j != 0 then CellId2(i, j - 1, nx) else n1;
    var n3 := if v == 2 && i != maxI then CellId2(i + 1, j, nx) else n2;
    var n4 := if v == 0 && i != 0 then CellId2(i - 1, j, nx) else n3;
    if v == 1 && j == maxJ then Face(ids, XMax, false)
    else if v == 3 && j == 0 then Face(ids, XMin, false)
    else if v == 2 && i == maxI then Face(ids, YMax, false)
    else if v == 0 && i == 0 then Face(ids, YMin, false)
    else Face(ids, n4, DefaultHasNeighbor)
  }

  function QuadCellAsWritten(i: nat, j: nat, nx: nat, ny: nat): Cell
    requires nx >= 2 && ny >= 2
  {
    Cell(Polygon, Quadrilateral, QuadVertexIds(i, j, nx),
         [Face2DAsWritten(i, j, 0, nx, ny), Face2DAsWritten(i, j, 1, nx, ny),
          Face2DAsWritten(i, j, 2, nx, ny), Face2DAsWritten(i, j, 3, nx, ny)])
  }

  /** Whether face v of cell (i, j) lies on the domain edge, and then its
    * boundary id. */
  predicate OnEdge2D(i: nat, j: nat, v: nat, nx: nat, ny: nat)
  {
    (v == 0 && i == 0) || (v == 1 && j == nx - 2) || (v == 2 && i == ny - 2) || (v == 3 && j == 0)
  }

  /** The cell across face v of an interior face. */
  function Across2D(i: nat, j: nat, v: nat): (nat, nat)
    requires v < 4 && (v == 0 ==> i > 0) && (v == 3 ==> j > 0)
  {
    if v == 0 then (i - 1, j) else if v == 1 then (i, j + 1) else if v == 2 then (i + 1, j) else (i, j - 1)
  }

  /** The face of the adjacent cell that looks back. */
  function Opposite2D(v: nat): nat
  {
    (v + 2) % 4
  }

  /** Appending entry n of a row-major scan keeps "entry v is the image of
    * (v / w, v % w)" for every earlier v. */
  lemma RowMajorStep(i: nat, j: nat, w: nat, n: nat)
    requires j < w && n == i * w + j
    ensures n / w == i && n % w == j
  {
    DivModRowMajor(i, j, w);
  }

  /** Vertex v of the scan sits at (x[v % Nx], y[v / Nx]). */
  predicate GridVertsAt(verts: seq<Point>, xs: seq<real>, ys: seq<real>)
    requires |xs| >= 1
  {
    forall v :: 0 <= v < |verts| ==>
      v / |xs| < |ys| && v % |xs| < |xs| && verts[v] == Point(xs[v % |xs|], ys[v / |xs|], 0.0)
  }

  /** Appending vertex (i, j) at position i * Nx + j keeps GridVertsAt. */
  lemma GridVertsSnoc(verts: seq<Point>, xs: seq<real>, ys: seq<real>, i: nat, j: nat)
    requires |xs| >= 1 && i < |ys| && j < |xs| && |verts| == i * |xs| + j
    requires GridVertsAt(verts, xs, ys)
    ensures GridVertsAt(verts + [Point(xs[j], ys[i], 0.0)], xs, ys)
  {
    RowMajorStep(i, j, |xs|, |verts|);
  }

  /** The vertex scan: vertex (i, j) sits at (x[j], y[i]). */
  method GridVertices2D(xs: seq<real>, ys: seq<real>) returns (verts: seq<Point>)
    requires |xs| >= 1
    ensures |verts| == |ys| * |xs|
    ensures GridVertsAt(verts, xs, ys)
  {
    var nx := |xs|;
    verts := [];
    for i := 0 to |ys|
      invariant |verts| == i * nx
      invariant GridVertsAt(verts, xs, ys)
    {
      for j := 0 to nx
        invariant |verts| == i * nx + j
        invariant GridVertsAt(verts, xs, ys)
      {
        GridVertsSnoc(verts, xs, ys, i, j);
        verts := verts + [Point(xs[j], ys[i], 0.0)];
      }
      assert (i + 1) * nx == i * nx + nx;
    }
  }

  /** Every cell so far is the as-written quadrilateral its row-major id
    * decodes to. */
  predicate QuadCellsAsWritten(cells: seq<Cell>, nx: nat, ny: nat)
    requires nx >= 2 && ny >= 2
  {
    forall c :: 0 <= c < |cells| ==> cells[c] == QuadCellAsWritten(c / (nx - 1), c % (nx - 1), nx, ny)
  }

  /** One row of the cell scan. */
  method QuadRow(i: nat, nx: nat, ny: nat, cells0: seq<Cell>) returns (cells: seq<Cell>)
    requires nx >= 2 && ny >= 2 && i < ny - 1
    requires |cells0| == i * (nx - 1)
    requires QuadCellsAsWritten(cells0, nx, ny)
    ensures |cells| == (i + 1) * (nx - 1)
    ensures QuadCellsAsWritten(cells, nx, ny)
  {
    cells := cells0;
    for j := 0 to nx - 1
      invariant |cells| == i * (nx - 1) + j
      invariant QuadCellsAsWritten(cells, nx, ny)
    {
      var vids := QuadVertexIds(i, j, nx);
      var faces: seq<Face> := [];
      for v := 0 to 4
        invariant |faces| == v && forall u :: 0 <= u < v ==> faces[u] == Face2DAsWritten(i, j, u, nx, ny)
      {
        faces := faces + [Face2DAsWritten(i, j, v, nx, ny)];
      }
      RowMajorStep(i, j, nx - 1, |cells|);
      cells := cells + [Cell(Polygon, Quadrilateral, vids, faces)];
    }
    assert (i + 1) * (nx - 1) == i * (nx - 1) + (nx - 1);
  }

  method CreateUnpartitioned2DOrthoMesh(xs: seq<real>, ys: seq<real>) returns (m: UnpartitionedMesh)
    requires |xs| >= 2 && |ys| >= 2
    ensures m.attributes == {Dimension2, Orthogonal}
    ensures m.orthoNx == |xs| - 1 && m.orthoNy == |ys| - 1 && m.orthoNz == 1
    ensures m.boundaryIdMap == map[XMax := "XMAX", XMin := "XMIN", YMax := "YMAX", YMin := "YMIN"]
    ensures |m.vertices| == |ys| * |xs|
    ensures forall v :: 0 <= v < |m.vertices| ==>
      v / |xs| < |ys| && v % |xs| < |xs| && m.vertices[v] == Point(xs[v % |xs|], ys[v / |xs|], 0.0)
    ensures |m.cells| == (|ys| - 1) * (|xs| - 1)
    ensures QuadCellsAsWritten(m.cells, |xs|, |ys|)
  {
    var nx := |xs|;
    var ny := |ys|;
    var verts := GridVertices2D(xs, ys);
    var cells: seq<Cell> := [];
    for i := 0 to ny - 1
      invariant |cells| == i * (nx - 1)
      invariant QuadCellsAsWritten(cells, nx, ny)
    {
      cells := QuadRow(i, nx, ny, cells);
    }
    m := UnpartitionedMesh({Dimension2, Orthogonal}, nx - 1, ny - 1, 1,
                           map[XMax := "XMAX", XMin := "XMIN", YMax := "YMAX", YMin := "YMIN"], verts, cells);
  }

  /** The boundary id a side of a quadrilateral carries on the domain edge. */
  function SideBoundaryId2D(v: nat): nat
  {
    if v == 0 then YMin else if v == 1 then XMax else if v == 2 then YMax else XMin
  }

  /** In 2D (as written and corrected alike) a face on the domain edge carries
    * its side's boundary id without a neighbour, and no face is ever given
    * a neighbour flag other than the default. */
  lemma Face2DEdges(i: nat, j: nat, v: nat, nx: nat, ny: nat)
    requires nx >= 2 && ny >= 2 && i < ny - 1 && j < nx - 1 && v < 4
    ensures OnEdge2D(i, j, v, nx, ny) ==>
      Face2DAsWritten(i, j, v, nx, ny).neighbor == SideBoundaryId2D(v) && !Face2DAsWritten(i, j, v, nx, ny).hasNeighbor &&
      Face2D(i, j, v, nx, ny).neighbor == SideBoundaryId2D(v) && !Face2D(i, j, v, nx, ny).hasNeighbor
    ensures !OnEdge2D(i, j, v, nx, ny) ==>
      Face2DAsWritten(i, j, v, nx, ny).hasNeighbor == DefaultHasNeighbor &&
      Face2D(i, j, v, nx, ny).hasNeighbor == DefaultHasNeighbor
  {
  }

  /** Corrected: an interior face names the cell across it, that cell lies in
    * the grid, and its opposite face names this cell over the same two
    * vertices. */
  lemma Face2DNeighbourAcross(i: nat, j: nat, v: nat, nx: nat, ny: nat)
    requires nx >= 2 && ny >= 2 && i < ny - 1 && j < nx - 1 && v < 4
    requires !OnEdge2D(i, j, v, nx, ny)
    ensures var (i', j') := Across2D(i, j, v);
      i' < ny - 1 && j' < nx - 1 &&
      Face2D(i, j, v, nx, ny).neighbor == CellId2(i', j', nx) &&
      !OnEdge2D(i', j', Opposite2D(v), nx, ny) &&
      Face2D(i', j', Opposite2D(v), nx, ny).neighbor == CellId2(i, j, nx) &&
      IdSet(Face2D(i', j', Opposite2D(v), nx, ny).vertexIds) == IdSet(Face2D(i, j, v, nx, ny).vertexIds)
  {
    var (i', j') := Across2D(i, j, v);
    var a := Face2D(i', j', Opposite2D(v), nx, ny).vertexIds;
    var b := Face2D(i, j, v, nx, ny).vertexIds;
    assert |a| == 2 && |b| == 2 && a[0] == b[1] && a[1] == b[0];
  }

  /** As written, the x-direction tests look at the row: on a 3-by-3 node grid
    * the left face of cell (0, 1) is interior, yet keeps the placeholder
    * value 1 instead of the id 0 of cell (0, 0) across it, which is what
    * Face2DNeighbourAcross gives for the corrected face. */
  lemma Face2DAsWrittenMissesLeftNeighbour()
    ensures !OnEdge2D(0, 1, 3, 3, 3) && Across2D(0, 1, 3) == (0, 0)
    ensures Face2DAsWritten(0, 1, 3, 3, 3).neighbor == 1 != CellId2(0, 0, 3)
  {
  }

  /** Likewise the right face of cell (1, 0), whose row equals the last column
    * index, keeps 1 instead of the id 3 of cell (1, 1). */
  lemma Face2DAsWrittenMissesRightNeighbour()
    ensures !OnEdge2D(1, 0, 1, 3, 3) && Across2D(1, 0, 1) == (1, 1)
    ensures Face2DAsWritten(1, 0, 1, 3, 3).neighbor == 1 != CellId2(1, 1, 3)
  {
  }

  // ---------------------------------------------------------------------
  // 3D: hexahedra over an x-by-y-by-z grid (i along y, j along x, k along z)

  /** vertex_ijk_to_i_map: the counter value at (i, j, k). */
  function VertexId3(i: nat, j: nat, k: nat, nx: nat, nz: nat): nat
  {
    (i * nx + j) * nz + k
  }

  /** cells_ijk_to_i_map. */
  function CellId3(i: nat, j: nat, k: nat, nx: nat, nz: nat): nat
    requires nx >= 1 && nz >= 1
  {
    (i * (nx - 1) + j) * (nz - 1) + k
  }

  /** Bottom corners counter-clockwise, then the top corners likewise. */
  function HexVertexIds(i: nat, j: nat, k: nat, nx: nat, nz: nat): (r: seq<nat>)
    ensures |r| == 8
  {
    [VertexId3(i, j, k, nx, nz), VertexId3(i, j + 1, k, nx, nz),
     VertexId3(i + 1, j + 1, k, nx, nz), VertexId3(i + 1, j, k, nx, nz),
     VertexId3(i, j, k + 1, nx, nz), VertexId3(i, j + 1, k + 1, nx, nz),
     VertexId3(i + 1, j + 1, k + 1, nx, nz), VertexId3(i + 1, j, k + 1, nx, nz)]
  }

  /** Hexahedron (i, j, k) with its faces East, West, North, South, Top,
    * Bottom: each names the cell across it, or, on the domain boundary, the
    * boundary id equal to its own position in this list. */
  function HexCell(i: nat, j: nat, k: nat, nx: nat, ny: nat, nz: nat): Cell
    requires nx >= 2 && ny >= 2 && nz >= 2
  {
    var maxJ := nx - 2;
    var maxI := ny - 2;
    var maxK := nz - 2;
    var east := Face([VertexId3(i, j + 1, k, nx, nz), VertexId3(i + 1, j + 1, k, nx, nz),
                      VertexId3(i + 1, j + 1, k + 1, nx, nz), VertexId3(i, j + 1, k + 1, nx, nz)],
                     if j == maxJ then XMax else CellId3(i, j + 1, k, nx, nz), j != maxJ);
    var west := Face([VertexId3(i, j, k, nx, nz), VertexId3(i, j, k + 1, nx, nz),
                      VertexId3(i + 1, j, k + 1, nx, nz), VertexId3(i + 1, j, k, nx, nz)],
                     if j == 0 then XMin else CellId3(i, j - 1, k, nx, nz), j != 0);
    var north := Face([VertexId3(i + 1, j, k, nx, nz), VertexId3(i + 1, j, k + 1, nx, nz),
                       VertexId3(i + 1, j + 1, k + 1, nx, nz), VertexId3(i + 1, j + 1, k, nx, nz)],
                      if i == maxI then YMax else CellId3(i + 1, j, k, nx, nz), i != maxI);
    var south := Face([VertexId3(i, j, k, nx, nz), VertexId3(i, j + 1, k, nx, nz),
                       VertexId3(i, j + 1, k + 1, nx, nz), VertexId3(i, j, k + 1, nx, nz)],
                      if i == 0 then YMin else CellId3(i - 1, j, k, nx, nz), i != 0);
    var top := Face([VertexId3(i, j, k + 1, nx, nz), VertexId3(i, j + 1, k + 1, nx, nz),
                     VertexId3(i + 1, j + 1, k + 1, nx, nz), VertexId3(i + 1, j, k + 1, nx, nz)],
                    if k == maxK then ZMax else CellId3(i, j, k + 1, nx, nz), k != maxK);
    var bottom := Face([VertexId3(i, j, k, nx, nz), VertexId3(i + 1, j, k, nx, nz),
                        VertexId3(i + 1, j + 1, k, nx, nz), VertexId3(i, j + 1, k, nx, nz)],
                       if k == 0 then ZMin else CellId3(i, j, k - 1, nx, nz), k != 0);
    Cell(Polyhedron, Hexahedron, HexVertexIds(i, j, k, nx, nz), [east, west, north, south, top, bottom])
  }

  /** Whether face f of hexahedron (i, j, k) lies on the domain boundary. */
  predicate OnEdge3D(i: nat, j: nat, k: nat, f: nat, nx: nat, ny: nat, nz: nat)
  {
    (f == 0 && j == nx - 2) || (f == 1 && j == 0) ||
    (f == 2 && i == ny - 2) || (f == 3 && i == 0) ||
    (f == 4 && k == nz - 2) || (f == 5 && k == 0)
  }

  /** The cell across an interior face. */
  function Across3D(i: nat, j: nat, k: nat, f: nat): (nat, nat, nat)
    requires f < 6 && (f == 1 ==> j > 0) && (f == 3 ==> i > 0) && (f == 5 ==> k > 0)
  {
    if f == 0 then (i, j + 1, k) else if f == 1 then (i, j - 1, k)
    else if f == 2 then (i + 1, j, k) else if f == 3 then (i - 1, j, k)
    else if f == 4 then (i, j, k + 1) else (i, j, k - 1)
  }

  /** East/West, North/South and Top/Bottom face each other. */
  function Opposite3D(f: nat): nat
  {
    if f % 2 == 0 then f + 1 else f - 1
  }

  /** A hexahedron's face lacks a neighbour exactly on the domain boundary,
    * and there its boundary id is its position among the six faces. */
  lemma HexBoundary(i: nat, j: nat, k: nat, f: nat, nx: nat, ny: nat, nz: nat)
    requires nx >= 2 && ny >= 2 && nz >= 2 && i < ny - 1 && j < nx - 1 && k < nz - 1 && f < 6
    ensures |HexCell(i, j, k, nx, ny, nz).faces| == 6 && |HexCell(i, j, k, nx, ny, nz).vertexIds| == 8
    ensures !HexCell(i, j, k, nx, ny, nz).faces[f].hasNeighbor <==> OnEdge3D(i, j, k, f, nx, ny, nz)
    ensures OnEdge3D(i, j, k, f, nx, ny, nz) ==> HexCell(i, j, k, nx, ny, nz).faces[f].neighbor == f
  {
  }

  /** Interior face f of hexahedron (i, j, k) names the hexahedron across it,
    * which lies in the grid and whose opposite face names (i, j, k) over the
    * same four vertices. */
  predicate HexFacesMeet(i: nat, j: nat, k: nat, f: nat, nx: nat, ny: nat, nz: nat)
    requires nx >= 2 && ny >= 2 && nz >= 2 && i < ny - 1 && j < nx - 1 && k < nz - 1 && f < 6
    requires !OnEdge3D(i, j, k, f, nx, ny, nz)
  {
    var (i', j', k') := Across3D(i, j, k, f);
    i' < ny - 1 && j' < nx - 1 && k' < nz - 1 &&
    HexCell(i, j, k, nx, ny, nz).faces[f].neighbor == CellId3(i', j', k', nx, nz) &&
    HexCell(i', j', k', nx, ny, nz).faces[Opposite3D(f)].hasNeighbor &&
    HexCell(i', j', k', nx, ny, nz).faces[Opposite3D(f)].neighbor == CellId3(i, j, k, nx, nz) &&
    IdSet(HexCell(i', j', k', nx, ny, nz).faces[Opposite3D(f)].vertexIds) ==
      IdSet(HexCell(i, j, k, nx, ny, nz).faces[f].vertexIds)
  }

  lemma HexFacesMeetX(i: nat, j: nat, k: nat, f: nat, nx: nat, ny: nat, nz: nat)
    requires nx >= 2 && ny >= 2 && nz >= 2 && i < ny - 1 && j < nx - 1 && k < nz - 1 && f < 2
    requires !OnEdge3D(i, j, k, f, nx, ny, nz)
    ensures HexFacesMeet(i, j, k, f, nx, ny, nz)
  {
    var (i', j', k') := Across3D(i, j, k, f);
    var a := HexCell(i', j', k', nx, ny, nz).faces[Opposite3D(f)].vertexIds;
    var b := HexCell(i, j, k, nx, ny, nz).faces[f].vertexIds;
    if f == 0 {
      assert a[0] == b[0] && a[1] == b[3] && a[2] == b[2] && a[3] == b[1];
    } else {
      assert b[0] == a[0] && b[1] == a[3] && b[2] == a[2] && b[3] == a[1];
    }
  }

  lemma HexFacesMeetY(i: nat, j: nat, k: nat, f: nat, nx: nat, ny: nat, nz: nat)
    requires nx >= 2 && ny >= 2 && nz >= 2 && i < ny - 1 && j < nx - 1 && k < nz - 1 && 2 <= f < 4
    requires !OnEdge3D(i, j, k, f, nx, ny, nz)
    ensures HexFacesMeet(i, j, k, f, nx, ny, nz)
  {
    var (i', j', k') := Across3D(i, j, k, f);
    var a := HexCell(i', j', k', nx, ny, nz).faces[Opposite3D(f)].vertexIds;
    var b := HexCell(i, j, k, nx, ny, nz).faces[f].vertexIds;
    if f == 2 {
      assert a[0] == b[0] && a[1] == b[3] && a[2] == b[2] && a[3] == b[1];
    } else {
      assert b[0] == a[0] && b[1] == a[3] && b[2] == a[2] && b[3] == a[1];
    }
  }

  lemma HexFacesMeetZ(i: nat, j: nat, k: nat, f: nat, nx: nat, ny: nat, nz: nat)
    requires nx >= 2 && ny >= 2 && nz >= 2 && i < ny - 1 && j < nx - 1 && k < nz - 1 && 4 <= f < 6
    requires !OnEdge3D(i, j, k, f, nx, ny, nz)
    ensures HexFacesMeet(i, j, k, f, nx, ny, nz)
  {
    var (i', j', k') := Across3D(i, j, k, f);
    var a := HexCell(i', j', k', nx, ny, nz).faces[Opposite3D(f)].vertexIds;
    var b := HexCell(i, j, k, nx, ny, nz).faces[f].vertexIds;
    if f == 4 {
      assert a[0] == b[0] && a[1] == b[3] && a[2] == b[2] && a[3] == b[1];
    } else {
      assert b[0] == a[0] && b[1] == a[3] && b[2] == a[2] && b[3] == a[1];
    }
  }

  /** Every interior face of every hexahedron meets its neighbour's opposite
    * face. */
  lemma HexNeighbourAcross(i: nat, j: nat, k: nat, f: nat, nx: nat, ny: nat, nz: nat)
    requires nx >= 2 && ny >= 2 && nz >= 2 && i < ny - 1 && j < nx - 1 && k < nz - 1 && f < 6
    requires !OnEdge3D(i, j, k, f, nx, ny, nz)
    ensures HexFacesMeet(i, j, k, f, nx, ny, nz)
  {
    if f < 2 {
      HexFacesMeetX(i, j, k, f, nx, ny, nz);
    } else if f < 4 {
      HexFacesMeetY(i, j, k, f, nx, ny, nz);
    } else {
      HexFacesMeetZ(i, j, k, f, nx, ny, nz);
    }
  }

  /** The (row, column, layer) a three-level row-major id decodes to, with
    * w columns per row and d layers per column. */
  function Decode3(n: nat, w: nat, d: nat): (r: (nat, nat, nat))
    requires 0 < w && 0 < d
    ensures r.1 < w && r.2 < d
  {
    (n / d / w, n / d % w, n % d)
  }

  /** Every vertex so far is the grid point its row-major id decodes to. */
  predicate GridVertices3DAt(verts: seq<Point>, xs: seq<real>, ys: seq<real>, zs: seq<real>)
    requires |xs| >= 1 && |zs| >= 1
  {
    forall v :: 0 <= v < |verts| ==>
      var (i, j, k) := Decode3(v, |xs|, |zs|);
      i < |ys| && verts[v] == Point(xs[j], ys[i], zs[k])
  }

  /** Encoding a grid position and decoding it again gives it back. */
  lemma RowMajorStep3(i: nat, j: nat, k: nat, w: nat, d: nat, n: nat)
    requires j < w && k < d && n == (i * w + j) * d + k
    ensures Decode3(n, w, d) == (i, j, k)
  {
    DivModRowMajor(i * w + j, k, d);
    DivModRowMajor(i, j, w);
  }

  /** One (i, j) column of the vertex scan. */
  method VertexColumn3D(i: nat, j: nat, xs: seq<real>, ys: seq<real>, zs: seq<real>, verts0: seq<Point>)
    returns (verts: seq<Point>)
    requires i < |ys| && j < |xs| && |zs| >= 1
    requires |verts0| == (i * |xs| + j) * |zs| && GridVertices3DAt(verts0, xs, ys, zs)
    ensures |verts| == (i * |xs| + j + 1) * |zs| && GridVertices3DAt(verts, xs, ys, zs)
  {
    verts := verts0;
    for k := 0 to |zs|
      invariant |verts| == (i * |xs| + j) * |zs| + k && GridVertices3DAt(verts, xs, ys, zs)
    {
      RowMajorStep3(i, j, k, |xs|, |zs|, |verts|);
      verts := verts + [Point(xs[j], ys[i], zs[k])];
    }
    assert (i * |xs| + j + 1) * |zs| == (i * |xs| + j) * |zs| + |zs|;
  }

  /** The vertex scan: vertex (i, j, k) sits at (x[j], y[i], z[k]). */
  method GridVertices3D(xs: seq<real>, ys: seq<real>, zs: seq<real>) returns (verts: seq<Point>)
    requires |xs| >= 1 && |zs| >= 1
    ensures |verts| == |ys| * |xs| * |zs| && GridVertices3DAt(verts, xs, ys, zs)
  {
    verts := [];
    for i := 0 to |ys|
      invariant |verts| == i * |xs| * |zs| && GridVertices3DAt(verts, xs, ys, zs)
    {
      for j := 0 to |xs|
        invariant |verts| == (i * |xs| + j) * |zs| && GridVertices3DAt(verts, xs, ys, zs)
      {
        verts := VertexColumn3D(i, j, xs, ys, zs, verts);
      }
      assert (i * |xs| + |xs|) * |zs| == (i + 1) * |xs| * |zs|;
    }
  }

  /** Every cell so far is the hexahedron its row-major id decodes to. */
  predicate HexCellsAt(cells: seq<Cell>, nx: nat, ny: nat, nz: nat)
    requires nx >= 2 && ny >= 2 && nz >= 2
  {
    forall c :: 0 <= c < |cells| ==>
      var (i, j, k) := Decode3(c, nx - 1, nz - 1);
      cells[c] == HexCell(i, j, k, nx, ny, nz)
  }

  /** One (i, j) column of the cell scan. */
  method HexColumn(i: nat, j: nat, nx: nat, ny: nat, nz: nat, cells0: seq<Cell>) returns (cells: seq<Cell>)
    requires nx >= 2 && ny >= 2 && nz >= 2 && i < ny - 1 && j < nx - 1
    requires |cells0| == (i * (nx - 1) + j) * (nz - 1) && HexCellsAt(cells0, nx, ny, nz)
    ensures |cells| == (i * (nx - 1) + j + 1) * (nz - 1) && HexCellsAt(cells, nx, ny, nz)
  {
    cells := cells0;
    for k := 0 to nz - 1
      invariant |cells| == (i * (nx - 1) + j) * (nz - 1) + k && HexCellsAt(cells, nx, ny, nz)
    {
      RowMajorStep3(i, j, k, nx - 1, nz - 1, |cells|);
      cells := cells + [HexCell(i, j, k, nx, ny, nz)];
    }
    assert (i * (nx - 1) + j + 1) * (nz - 1) == (i * (nx - 1) + j) * (nz - 1) + (nz - 1);
  }

  method CreateUnpartitioned3DOrthoMesh(xs: seq<real>, ys: seq<real>, zs: seq<real>) returns (m: UnpartitionedMesh)
    requires |xs| >= 2 && |ys| >= 2 && |zs| >= 2
    ensures m.attributes == {Dimension3, Orthogonal}
    ensures m.orthoNx == |xs| - 1 && m.orthoNy == |ys| - 1 && m.orthoNz == |zs| - 1
    ensures m.boundaryIdMap == map[XMax := "XMAX", XMin := "XMIN", YMax := "YMAX", YMin := "YMIN",
                                   ZMax := "ZMAX", ZMin := "ZMIN"]
    ensures |m.vertices| == |ys| * |xs| * |zs| && GridVertices3DAt(m.vertices, xs, ys, zs)
    ensures |m.cells| == (|ys| - 1) * (|xs| - 1) * (|zs| - 1) && HexCellsAt(m.cells, |xs|, |ys|, |zs|)
  {
    var nx := |xs|;
    var ny := |ys|;
    var nz := |zs|;
    var verts := GridVertices3D(xs, ys, zs);
    var cells: seq<Cell> := [];
    for i := 0 to ny - 1
      invariant |cells| == i * (nx - 1) * (nz - 1) && HexCellsAt(cells, nx, ny, nz)
    {
      for j := 0 to nx - 1
        invariant |cells| == (i * (nx - 1) + j) * (nz - 1) && HexCellsAt(cells, nx, ny, nz)
      {
        cells := HexColumn(i, j, nx, ny, nz, cells);
      }
      assert (i * (nx - 1) + (nx - 1)) * (nz - 1) == (i + 1) * (nx - 1) * (nz - 1);
    }
    m := UnpartitionedMesh({Dimension3, Orthogonal}, nx - 1, ny - 1, nz - 1,
                           map[XMax := "XMAX", XMin := "XMIN", YMax := "YMAX", YMin := "YMIN",
                               ZMax := "ZMAX", ZMin := "ZMIN"], verts, cells);
  }

  /** An id below a*w*d decodes to a cell of the grid and encodes back. */
  lemma DecodeInGrid(c: nat, a: nat, w: nat, d: nat)
    requires 0 < w && 0 < d && c < a * w * d
    ensures var (i, j, k) := Decode3(c, w, d); i < a && (i * w + j) * d + k == c
  {
    DivBound(c, d, a * w);
    DivBound(c / d, w, a);
  }

  /** A cell of the grid encodes below a*w*d. */
  lemma EncodeInGrid(i: nat, j: nat, k: nat, a: nat, w: nat, d: nat)
    requires i < a && j < w && k < d
    ensures (i * w + j) * d + k < a * w * d
  {
    RowMajorBound(i, j, w, a);
    RowMajorBound(i * w + j, k, d, a * w);
  }

  /** The hexahedron a 3D mesh holds at id c, and where it sits. */
  lemma HexAt(cells: seq<Cell>, nx: nat, ny: nat, nz: nat, c: nat) returns (i: nat, j: nat, k: nat)
    requires nx >= 2 && ny >= 2 && nz >= 2
    requires |cells| == (ny - 1) * (nx - 1) * (nz - 1) && HexCellsAt(cells, nx, ny, nz)
    requires c < |cells|
    ensures i < ny - 1 && j < nx - 1 && k < nz - 1
    ensures CellId3(i, j, k, nx, nz) == c && cells[c] == HexCell(i, j, k, nx, ny, nz)
  {
    DecodeInGrid(c, ny - 1, nx - 1, nz - 1);
    var (i', j', k') := Decode3(c, nx - 1, nz - 1);
    i, j, k := i', j', k';
  }

  /** One face of the 3D mesh that claims a neighbour is met by it. */
  lemma HexFaceReciprocal(cells: seq<Cell>, nx: nat, ny: nat, nz: nat, c: nat, f: nat)
    requires nx >= 2 && ny >= 2 && nz >= 2
    requires |cells| == (ny - 1) * (nx - 1) * (nz - 1) && HexCellsAt(cells, nx, ny, nz)
    requires c < |cells| && f < |cells[c].faces| && cells[c].faces[f].hasNeighbor
    ensures cells[c].faces[f].neighbor < |cells| &&
            HasMatchingFace(cells[cells[c].faces[f].neighbor], c, cells[c].faces[f].vertexIds)
  {
    var i, j, k := HexAt(cells, nx, ny, nz, c);
    HexBoundary(i, j, k, f, nx, ny, nz);
    HexNeighbourAcross(i, j, k, f, nx, ny, nz);
    var (i', j', k') := Across3D(i, j, k, f);
    var n := CellId3(i', j', k', nx, nz);
    EncodeInGrid(i', j', k', ny - 1, nx - 1, nz - 1);
    RowMajorStep3(i', j', k', nx - 1, nz - 1, n);
    assert cells[n] == HexCell(i', j', k', nx, ny, nz);
    var g := Opposite3D(f);
    assert 0 <= g < |cells[n].faces| && cells[n].faces[g].hasNeighbor && cells[n].faces[g].neighbor == c;
  }

  /** The 3D mesh's neighbour links are mutual and every boundary face carries
    * a named boundary id. */
  lemma HexMeshConsistent(m: UnpartitionedMesh, nx: nat, ny: nat, nz: nat)
    requires nx >= 2 && ny >= 2 && nz >= 2
    requires m.boundaryIdMap == map[XMax := "XMAX", XMin := "XMIN", YMax := "YMAX", YMin := "YMIN",
                                    ZMax := "ZMAX", ZMin := "ZMIN"]
    requires |m.cells| == (ny - 1) * (nx - 1) * (nz - 1) && HexCellsAt(m.cells, nx, ny, nz)
    ensures NeighboursReciprocal(m.cells)
    ensures BoundaryFacesNamed(m.cells, m.boundaryIdMap)
  {
    forall c, f | 0 <= c < |m.cells| && 0 <= f < |m.cells[c].faces| && m.cells[c].faces[f].hasNeighbor
      ensures m.cells[c].faces[f].neighbor < |m.cells| &&
              HasMatchingFace(m.cells[m.cells[c].faces[f].neighbor], c, m.cells[c].faces[f].vertexIds)
    {
      HexFaceReciprocal(m.cells, nx, ny, nz, c, f);
    }
    forall c, f | 0 <= c < |m.cells| && 0 <= f < |m.cells[c].faces| && !m.cells[c].faces[f].hasNeighbor
      ensures m.cells[c].faces[f].neighbor in m.boundaryIdMap
    {
      var i, j, k := HexAt(m.cells, nx, ny, nz, c);
      HexBoundary(i, j, k, f, nx, ny, nz);
    }
  }

  // ---------------------------------------------------------------------
  // Dispatch

  /** GenerateUnpartitionedMesh: this generator cannot follow another one,
    * and dispatches on the number of node sets (the constructor admits only
    * one to three, so the logic_error branch is unreachable after it). */
  method GenerateUnpartitionedMesh(g: OrthogonalMeshGenerator, inputMeshGiven: bool) returns (r: Result<UnpartitionedMesh>)
    requires forall s :: 0 <= s < |g.nodeSets| ==> |g.nodeSets[s]| >= 2
    ensures inputMeshGiven ==> r == Failure(InvalidArgument)
    ensures !inputMeshGiven && !(1 <= |g.nodeSets| <= 3) ==> r == Failure(LogicError)
    ensures r.Success? <==> !inputMeshGiven && 1 <= |g.nodeSets| <= 3
    ensures r.Success? && |g.nodeSets| == 1 ==>
      Dimension1 in r.value.attributes && |r.value.cells| == |g.nodeSets[0]| - 1 &&
      NeighboursReciprocal(r.value.cells) && BoundaryFacesNamed(r.value.cells, r.value.boundaryIdMap)
    ensures r.Success? && |g.nodeSets| == 2 ==>
      Dimension2 in r.value.attributes && |r.value.cells| == (|g.nodeSets[1]| - 1) * (|g.nodeSets[0]| - 1)
    ensures r.Success? && |g.nodeSets| == 3 ==>
      Dimension3 in r.value.attributes && |r.value.cells| == (|g.nodeSets[1]| - 1) * (|g.nodeSets[0]| - 1) * (|g.nodeSets[2]| - 1) &&
      NeighboursReciprocal(r.value.cells) && BoundaryFacesNamed(r.value.cells, r.value.boundaryIdMap)
  {
    if inputMeshGiven {
      return Failure(InvalidArgument);
    }
    var ns := g.nodeSets;
    if |ns| == 1 {
      var m := CreateUnpartitioned1DOrthoMesh(ns[0]);
      SlabMeshConsistent(ns[0], m);
      return Success(m);
    } else if |ns| == 2 {
      var m := CreateUnpartitioned2DOrthoMesh(ns[0], ns[1]);
      return Success(m);
    } else if |ns| == 3 {
      var m := CreateUnpartitioned3DOrthoMesh(ns[0], ns[1], ns[2]);
      HexMeshConsistent(m, |ns[0]|, |ns[1]|, |ns[2]|);
      return Success(m);
    }
    return Failure(LogicError);
  }
}
