// Value types shared by the mesh generator and the mesh-continuum utilities:
// vertices, cell types, the light-weight faces and cells an unpartitioned
// mesh is built from, and the mesh attribute flags.
module MeshTypes {

  /** chi_mesh::Vector3, coordinates as reals. */
  datatype Point = Point(x: real, y: real, z: real)

  /** chi_mesh::CellType. Unlisted stands for any value outside the named
    * enumerators (an integer cast to the enumeration). */
  datatype CellType =
    | Ghost | PointCell | Slab | Triangle | Quadrilateral | Polygon
    | Tetrahedron | Hexahedron | Wedge | Pyramid | Polyhedron
    | Unlisted(code: int)

  /** chi_mesh::MeshAttributes flags that the modelled code sets or tests. */
  datatype MeshAttribute = Dimension1 | Dimension2 | Dimension3 | Orthogonal

  /** A face: its vertex ids, and either the id of the neighbouring cell
    * (hasNeighbor) or a boundary id (not hasNeighbor). */
  datatype Face = Face(vertexIds: seq<nat>, neighbor: nat, hasNeighbor: bool)

  datatype Cell = Cell(cellType: CellType, subType: CellType, vertexIds: seq<nat>, faces: seq<Face>)

  /** The set of vertex ids listed by a face or a cell. */
  function IdSet(s: seq<nat>): (r: set<nat>)
    ensures forall x :: x in r <==> x in s
  {
    set x | x in s
  }

  /** The neighbouring cell has a face pointing back at cell c over the same
    * vertices. */
  ghost predicate HasMatchingFace(neighbour: Cell, c: nat, ids: seq<nat>)
  {
    exists g :: 0 <= g < |neighbour.faces| && neighbour.faces[g].hasNeighbor &&
      neighbour.faces[g].neighbor == c && IdSet(neighbour.faces[g].vertexIds) == IdSet(ids)
  }

  /** Every face that claims a neighbour names a cell of the mesh, and that
    * cell shares the face and points back. */
  ghost predicate NeighboursReciprocal(cells: seq<Cell>)
  {
    forall c, f :: 0 <= c < |cells| && 0 <= f < |cells[c].faces| && cells[c].faces[f].hasNeighbor ==>
      cells[c].faces[f].neighbor < |cells| &&
      HasMatchingFace(cells[cells[c].faces[f].neighbor], c, cells[c].faces[f].vertexIds)
  }

  /** Every face without a neighbour carries a boundary id the map names. */
  ghost predicate BoundaryFacesNamed(cells: seq<Cell>, boundaryIdMap: map<nat, string>)
  {
    forall c, f :: 0 <= c < |cells| && 0 <= f < |cells[c].faces| && !cells[c].faces[f].hasNeighbor ==>
      cells[c].faces[f].neighbor in boundaryIdMap
  }
}
