// chi_mesh::SurfaceMesh, the Wavefront OBJ path: the import loop that turns
// the records of a file into vertices, triangle faces, polygon faces and
// line edges (indices stored 0-based), the connectivity pass that links
// every edge to the edge running the other way, and the export that writes
// the indices back 1-based.
module SurfaceMesh {
  import opened Wrappers
  import opened MeshTypes

  /** The value an index slot holds before anything is assigned to it. */
  const Unset: int := -1

  const Origin := Point(0.0, 0.0, 0.0)

  /** One edge of a face: tail and head vertex ids, then the face and edge
    * index of the neighbouring edge (Unset when none). */
  datatype EdgeLink = EdgeLink(tail: int, head: int, face: int, edge: int)

  /** chi_mesh::Face, a triangle: vertex, normal and texture indices, and
    * its three edges. */
  datatype TriFace = TriFace(vIndex: seq<int>, nIndex: seq<int>, vtIndex: seq<int>,
                             edges: seq<EdgeLink>, geometricNormal: Point)

  /** chi_mesh::PolyFace: any number of vertices and one edge per vertex. */
  datatype PolyFace = PolyFace(vIndices: seq<int>, edges: seq<EdgeLink>, geometricNormal: Point)

  /** chi_mesh::Edge, a line element between two vertices. */
  datatype Edge = Edge(vIndex0: int, vIndex1: int)

  /** One word of an "f" line: the vertex number, the optional texture
    * number, the normal number (all 1-based as written in the file), and
    * how many '/' the word holds. */
  datatype FaceWord = FaceWord(vertex: int, texture: Option<int>, normal: int, slashes: nat)

  /** One line of an OBJ file, by its first word. */
  datatype ObjRecord =
    | VertexLine(p: Point)
    | TexVertexLine(p: Point)
    | NormalLine(p: Point)
    | FaceLine(words: seq<FaceWord>)
    | EdgeLine(a: int, b: int)
    | OtherLine(keyword: string)
    | BlankLine // empty or only spaces: no first word, and substr(npos) throws out_of_range

  /** The lists a surface mesh holds. */
  datatype MeshState = MeshState(vertices: seq<Point>, texVertices: seq<Point>, normals: seq<Point>,
                                 faces: seq<TriFace>, polyFaces: seq<PolyFace>, lines: seq<Edge>)

  const Empty := MeshState([], [], [], [], [], [])

  /** Every triangle has three vertex, normal and texture slots and three
    * edges. */
  predicate TrianglesWellFormed(faces: seq<TriFace>)
  {
    forall i :: 0 <= i < |faces| ==>
      |faces[i].vIndex| == 3 && |faces[i].nIndex| == 3 && |faces[i].vtIndex| == 3 && |faces[i].edges| == 3
  }

  // ---------------------------------------------------------------------
  // Face construction

  /** The '/' characters on an "f" line. */
  function SlashTotal(words: seq<FaceWord>): nat
  {
    if words == [] then 0 else SlashTotal(words[..|words| - 1]) + words[|words| - 1].slashes
  }

  /** number_of_verts: half the number of '/' on the line. */
  function NumberOfVerts(words: seq<FaceWord>): nat
  {
    SlashTotal(words) / 2
  }

  /** The vertex after v around a loop of n vertices: the last wraps back
    * to the first. */
  function Next(v: nat, n: nat): nat
  {
    if v + 1 >= n then 0 else v + 1
  }

  /** The closed loop of edges around a list of vertices: edge v runs from
    * vertex v to the next one, with no neighbour yet. */
  function ClosedEdges(vs: seq<int>): (r: seq<EdgeLink>)
    ensures |r| == |vs|
    ensures forall v :: 0 <= v < |r| ==> r[v].tail == vs[v] && r[v].face == Unset && r[v].edge == Unset
  {
    seq(|vs|, v requires 0 <= v < |vs| => EdgeLink(vs[v], vs[Next(v, |vs|)], Unset, Unset))
  }

  /** The edges join up: each one ends where the next one starts, and the
    * last one ends at the first vertex. */
  lemma ClosedEdgesLoop(vs: seq<int>, v: nat)
    requires v < |vs|
    ensures ClosedEdges(vs)[v].head == ClosedEdges(vs)[Next(v, |vs|)].tail
    ensures v == |vs| - 1 ==> ClosedEdges(vs)[v].head == vs[0]
  {
  }

  /** For a triangle the loop is (v0,v1), (v1,v2), (v2,v0). */
  lemma TriangleEdgesListed(vs: seq<int>)
    requires |vs| == 3
    ensures ClosedEdges(vs) == [EdgeLink(vs[0], vs[1], Unset, Unset), EdgeLink(vs[1], vs[2], Unset, Unset),
                                EdgeLink(vs[2], vs[0], Unset, Unset)]
  {
  }

  /** Slot k of a triangle read from `words`: the 1-based number minus one,
    * or Unset when the line ended before word k. */
  function VertexSlot(words: seq<FaceWord>, k: nat): int
  {
    if k < |words| then words[k].vertex - 1 else Unset
  }

  function NormalSlot(words: seq<FaceWord>, k: nat): int
  {
    if k < |words| then words[k].normal - 1 else Unset
  }

  function TextureSlot(words: seq<FaceWord>, k: nat): int
  {
    if k < |words| && words[k].texture.Some? then words[k].texture.value - 1 else Unset
  }

  /** The triangle an "f" line with three vertices makes. */
  function TriangleFace(words: seq<FaceWord>): (t: TriFace)
    ensures |t.vIndex| == 3 && |t.nIndex| == 3 && |t.vtIndex| == 3 && |t.edges| == 3
    ensures forall k :: 0 <= k < 3 && k < |words| ==>
      t.vIndex[k] == words[k].vertex - 1 && t.nIndex[k] == words[k].normal - 1
  {
    var vs := [VertexSlot(words, 0), VertexSlot(words, 1), VertexSlot(words, 2)];
    TriFace(vs,
            [NormalSlot(words, 0), NormalSlot(words, 1), NormalSlot(words, 2)],
            [TextureSlot(words, 0), TextureSlot(words, 1), TextureSlot(words, 2)],
            ClosedEdges(vs), Origin)
  }

  /** The vertex ids of the first `n` words, each made 0-based. */
  function ZeroBased(words: seq<FaceWord>, n: nat): (r: seq<int>)
    requires n <= |words|
    ensures |r| == n && forall k :: 0 <= k < n ==> r[k] == words[k].vertex - 1
  {
    seq(n, k requires 0 <= k < n => words[k].vertex - 1)
  }

  function Min(a: nat, b: nat): nat
  {
    if a <= b then a else b
  }

  /** The polygon an "f" line makes: the first number_of_verts words (fewer
    * when the line ends sooner), closed into a loop of edges. */
  function PolygonFace(words: seq<FaceWord>, nv: nat): (p: PolyFace)
  {
    var vs := ZeroBased(words, Min(nv, |words|));
    PolyFace(vs, ClosedEdges(vs), Origin)
  }

  /** The polygon branch of the import: reads the words, then builds one
    * edge per vertex. */
  method ReadPolygonFace(words: seq<FaceWord>, nv: nat) returns (face: PolyFace)
    ensures face == PolygonFace(words, nv)
  {
    var vs: seq<int> := [];
    var k := 0;
    while k < nv && k < |words|
      invariant 0 <= k <= Min(nv, |words|)
      invariant |vs| == k && forall i :: 0 <= i < k ==> vs[i] == words[i].vertex - 1
    {
      vs := vs + [words[k].vertex - 1];
      k := k + 1;
    }
    assert vs == ZeroBased(words, Min(nv, |words|));
    var edges: seq<EdgeLink> := [];
    for v := 0 to |vs|
      invariant |edges| == v
      invariant forall i :: 0 <= i < v ==> edges[i] == EdgeLink(vs[i], vs[Next(i, |vs|)], Unset, Unset)
    {
      // The source first reads v_indices[v + 1], which for the last vertex
      // is one past the end, and then overwrites it with v_indices[0].
      var head := if v + 1 >= |vs| then vs[0] else vs[v + 1];
      edges := edges + [EdgeLink(vs[v], head, Unset, Unset)];
    }
    assert edges == ClosedEdges(vs);
    face := PolyFace(vs, edges, Origin);
  }

  /** An "f" line written without '/' (plain "f 1 2 3") counts zero
    * vertices, so it becomes a polygon with no vertices at all. */
  lemma PlainFaceLineGivesEmptyPolygon(s: MeshState)
    ensures var line := [FaceWord(1, None, 1, 0), FaceWord(2, None, 2, 0), FaceWord(3, None, 3, 0)];
      var p := ParseStep(s, FaceLine(line), false);
      !p.1 && p.0.faces == s.faces && p.0.polyFaces == s.polyFaces + [PolyFace([], [], Origin)]
  {
    var line := [FaceWord(1, None, 1, 0), FaceWord(2, None, 2, 0), FaceWord(3, None, 3, 0)];
    assert line[..2][..1] == line[..1] && line[..1][..0] == [];
    assert SlashTotal(line[..1]) == 0;
    assert SlashTotal(line[..2]) == 0;
    assert line[..3] == line;
  }

  // ---------------------------------------------------------------------
  // The import loop

  /** One record of the file. A line element whose vertex is not yet read
    * throws out_of_range (vertices.at), and so does a blank line; either
    * ends the import. */
  function ParseStep(s: MeshState, rec: ObjRecord, asPoly: bool): (r: (MeshState, bool))
  {
    match rec
    case VertexLine(p) => (s.(vertices := s.vertices + [p]), false)
    case TexVertexLine(p) => (s.(texVertices := s.texVertices + [p]), false)
    case NormalLine(p) => (s.(normals := s.normals + [p]), false)
    case FaceLine(words) =>
      var nv := NumberOfVerts(words);
      if nv == 3 && !asPoly then (s.(faces := s.faces + [TriangleFace(words)]), false)
      else (s.(polyFaces := s.polyFaces + [PolygonFace(words, nv)]), false)
    case EdgeLine(a, b) =>
      if 0 <= a - 1 < |s.vertices| && 0 <= b - 1 < |s.vertices|
      then (s.(lines := s.lines + [Edge(a - 1, b - 1)]), false)
      else (s, true)
    case OtherLine(_) => (s, false)
    case BlankLine => (s, true)
  }

  /** The records in order; stops at the first one that throws, reporting
    * the state reached and true. */
  function ParseRecords(s: MeshState, recs: seq<ObjRecord>, asPoly: bool): (MeshState, bool)
  {
    if recs == [] then (s, false)
    else
      var p := ParseRecords(s, recs[..|recs| - 1], asPoly);
      if p.1 then p else ParseStep(p.0, recs[|recs| - 1], asPoly)
  }

  /** A blank line anywhere in the file ends the import with a failure. */
  lemma {:induction false} BlankLineFailsImport(s: MeshState, recs: seq<ObjRecord>, asPoly: bool, k: nat)
    requires k < |recs| && recs[k] == BlankLine
    ensures ParseRecords(s, recs, asPoly).1
    decreases |recs|
  {
    if k < |recs| - 1 {
      BlankLineFailsImport(s, recs[..|recs| - 1], asPoly, k);
    }
  }

  lemma ParseStepWellFormed(s: MeshState, rec: ObjRecord, asPoly: bool)
    requires TrianglesWellFormed(s.faces)
    ensures TrianglesWellFormed(ParseStep(s, rec, asPoly).0.faces)
  {
  }

  /** The triangles' vertex and normal indices all name list entries
    * (the vertices.at and normals.at of the geometry pass). */
  predicate TriangleIndicesInRange(s: MeshState)
  {
    forall i :: 0 <= i < |s.faces| ==> TriangleInRange(s, i)
  }

  predicate TriangleInRange(s: MeshState, i: nat)
    requires i < |s.faces|
  {
    (forall k :: 0 <= k < |s.faces[i].vIndex| ==> 0 <= s.faces[i].vIndex[k] < |s.vertices|) &&
    (forall k :: 0 <= k < |s.faces[i].nIndex| ==> 0 <= s.faces[i].nIndex[k] < |s.normals|)
  }

  /** The state after a successful import: both connectivity passes run. */
  function Linked(s: MeshState): MeshState
  {
    s.(faces := LinkTriangles(s.faces), polyFaces := LinkPolygons(s.polyFaces))
  }

  // ---------------------------------------------------------------------
  // Connectivity: edge e of face f is linked to the last edge (in face,
  // then edge order) that runs the other way. Triangles may match
  // themselves and start from Unset; polygons skip themselves and keep the
  // link they had when nothing matches.

  /** Edge e2 of face g (a face other than `skip`) runs from b to a. */
  predicate ReverseAt(lists: seq<seq<EdgeLink>>, skip: int, a: int, b: int, g: int, e2: int)
  {
    0 <= g < |lists| && g != skip && 0 <= e2 < |lists[g]| && lists[g][e2].tail == b && lists[g][e2].head == a
  }

  /** The edge loop over one face, as far as edge k. */
  function ScanEdges(edges: seq<EdgeLink>, a: int, b: int, g: int, k: nat, prev: (int, int)): (int, int)
    requires k <= |edges|
  {
    if k == 0 then prev
    else
      var p := ScanEdges(edges, a, b, g, k - 1, prev);
      if edges[k - 1].tail == b && edges[k - 1].head == a then (g, k - 1) else p
  }

  /** The face loop, as far as face n. */
  function ScanFaces(lists: seq<seq<EdgeLink>>, skip: int, a: int, b: int, n: nat, prev: (int, int)): (int, int)
    requires n <= |lists|
  {
    if n == 0 then prev
    else
      var p := ScanFaces(lists, skip, a, b, n - 1, prev);
      if n - 1 == skip then p else ScanEdges(lists[n - 1], a, b, n - 1, |lists[n - 1]|, p)
  }

  lemma {:induction false} ScanEdgesIsLastMatch(lists: seq<seq<EdgeLink>>, skip: int, a: int, b: int, g: int, k: nat, prev: (int, int))
    requires 0 <= g < |lists| && g != skip && k <= |lists[g]|
    ensures var r := ScanEdges(lists[g], a, b, g, k, prev);
      (r == prev && forall e2 :: 0 <= e2 < k ==> !ReverseAt(lists, skip, a, b, g, e2)) ||
      (r.0 == g && r.1 < k && ReverseAt(lists, skip, a, b, g, r.1) &&
       forall e2 :: r.1 < e2 < k ==> !ReverseAt(lists, skip, a, b, g, e2))
  {
    if k > 0 {
      ScanEdgesIsLastMatch(lists, skip, a, b, g, k - 1, prev);
    }
  }

  /** The face loop returns the last reverse edge among faces before n, or
    * `prev` when there is none. */
  lemma {:induction false} ScanFacesIsLastMatch(lists: seq<seq<EdgeLink>>, skip: int, a: int, b: int, n: nat, prev: (int, int))
    requires n <= |lists|
    ensures var r := ScanFaces(lists, skip, a, b, n, prev);
      (r == prev && forall g, e2 :: 0 <= g < n ==> !ReverseAt(lists, skip, a, b, g, e2)) ||
      (0 <= r.0 < n && ReverseAt(lists, skip, a, b, r.0, r.1) &&
       forall g, e2 :: 0 <= g < n && ReverseAt(lists, skip, a, b, g, e2) ==> g < r.0 || (g == r.0 && e2 <= r.1))
  {
    if n > 0 {
      ScanFacesIsLastMatch(lists, skip, a, b, n - 1, prev);
      if n - 1 != skip {
        var p := ScanFaces(lists, skip, a, b, n - 1, prev);
        ScanEdgesIsLastMatch(lists, skip, a, b, n - 1, |lists[n - 1]|, p);
      }
    }
  }

  /** The link edge e of face f starts from. */
  function StartLink(ed: EdgeLink, reset: bool): (int, int)
  {
    if reset then (Unset, Unset) else (ed.face, ed.edge)
  }

  /** Edge e of face f after the faces before n have been scanned. */
  function ScannedEdge(lists: seq<seq<EdgeLink>>, f: nat, skip: int, reset: bool, e: nat, n: nat): (r: EdgeLink)
    requires f < |lists| && e < |lists[f]| && n <= |lists|
    ensures r.tail == lists[f][e].tail && r.head == lists[f][e].head
  {
    var ed := lists[f][e];
    var l := ScanFaces(lists, skip, ed.tail, ed.head, n, StartLink(ed, reset));
    EdgeLink(ed.tail, ed.head, l.0, l.1)
  }

  /** The edges of face f once linked. */
  function LinkedEdges(lists: seq<seq<EdgeLink>>, f: nat, skip: int, reset: bool): (r: seq<EdgeLink>)
    requires f < |lists|
    ensures |r| == |lists[f]|
  {
    seq(|lists[f]|, e requires 0 <= e < |lists[f]| => ScannedEdge(lists, f, skip, reset, e, |lists|))
  }

  function TriEdgeLists(faces: seq<TriFace>): (r: seq<seq<EdgeLink>>)
    ensures |r| == |faces| && forall i :: 0 <= i < |faces| ==> r[i] == faces[i].edges
  {
    seq(|faces|, i requires 0 <= i < |faces| => faces[i].edges)
  }

  function PolyEdgeLists(polys: seq<PolyFace>): (r: seq<seq<EdgeLink>>)
    ensures |r| == |polys| && forall i :: 0 <= i < |polys| ==> r[i] == polys[i].edges
  {
    seq(|polys|, i requires 0 <= i < |polys| => polys[i].edges)
  }

  /** Triangle f once linked: every triangle, itself included, is scanned
    * and the links start from Unset. */
  function LinkedTriangle(faces: seq<TriFace>, f: nat): TriFace
    requires f < |faces|
  {
    faces[f].(edges := LinkedEdges(TriEdgeLists(faces), f, Unset, true))
  }

  function LinkTriangles(faces: seq<TriFace>): (r: seq<TriFace>)
    ensures |r| == |faces|
  {
    seq(|faces|, f requires 0 <= f < |faces| => LinkedTriangle(faces, f))
  }

  /** Polygon f once linked: the other polygons are scanned and the links
    * start from the ones the edges already hold. */
  function LinkedPolygon(polys: seq<PolyFace>, f: nat): PolyFace
    requires f < |polys|
  {
    polys[f].(edges := LinkedEdges(PolyEdgeLists(polys), f, f, false))
  }

  function LinkPolygons(polys: seq<PolyFace>): (r: seq<PolyFace>)
    ensures |r| == |polys|
  {
    seq(|polys|, f requires 0 <= f < |polys| => LinkedPolygon(polys, f))
  }

  /** Two lists of edge lists agree on every edge's end points. */
  predicate SameEnds(l1: seq<seq<EdgeLink>>, l2: seq<seq<EdgeLink>>)
  {
    |l1| == |l2| &&
    forall g :: 0 <= g < |l1| ==>
      |l1[g]| == |l2[g]| &&
      forall e :: 0 <= e < |l1[g]| ==> l1[g][e].tail == l2[g][e].tail && l1[g][e].head == l2[g][e].head
  }

  lemma {:induction false} ScanEdgesEnds(e1: seq<EdgeLink>, e2: seq<EdgeLink>, a: int, b: int, g: int, k: nat, prev: (int, int))
    requires k <= |e1| == |e2|
    requires forall e :: 0 <= e < |e1| ==> e1[e].tail == e2[e].tail && e1[e].head == e2[e].head
    ensures ScanEdges(e1, a, b, g, k, prev) == ScanEdges(e2, a, b, g, k, prev)
  {
    if k > 0 {
      ScanEdgesEnds(e1, e2, a, b, g, k - 1, prev);
    }
  }

  /** The scan reads only the end points of the edges. */
  lemma {:induction false} ScanFacesEnds(l1: seq<seq<EdgeLink>>, l2: seq<seq<EdgeLink>>, skip: int, a: int, b: int, n: nat, prev: (int, int))
    requires SameEnds(l1, l2) && n <= |l1|
    ensures ScanFaces(l1, skip, a, b, n, prev) == ScanFaces(l2, skip, a, b, n, prev)
  {
    if n > 0 {
      ScanFacesEnds(l1, l2, skip, a, b, n - 1, prev);
      ScanEdgesEnds(l1[n - 1], l2[n - 1], a, b, n - 1, |l1[n - 1]|, ScanFaces(l1, skip, a, b, n - 1, prev));
    }
  }

  lemma LinkedEdgesEnds(l1: seq<seq<EdgeLink>>, l2: seq<seq<EdgeLink>>, f: nat, skip: int, reset: bool)
    requires SameEnds(l1, l2) && f < |l1| && l1[f] == l2[f]
    ensures LinkedEdges(l1, f, skip, reset) == LinkedEdges(l2, f, skip, reset)
  {
    forall e | 0 <= e < |l1[f]|
      ensures ScannedEdge(l1, f, skip, reset, e, |l1|) == ScannedEdge(l2, f, skip, reset, e, |l2|)
    {
      var ed := l1[f][e];
      ScanFacesEnds(l1, l2, skip, ed.tail, ed.head, |l1|, StartLink(ed, reset));
    }
  }

  /** Linking changes only the links, never the end points. */
  lemma LinkKeepsEnds(l1: seq<seq<EdgeLink>>, l0: seq<seq<EdgeLink>>, f: nat, skip: int, reset: bool)
    requires SameEnds(l1, l0) && f < |l1|
    ensures SameEnds(l1[f := LinkedEdges(l1, f, skip, reset)], l0)
  {
  }

  /** The triple loop for one face: scan every face (but `skip`), every
    * edge of face f, every edge of the other face. */
  method LinkFaceEdges(lists: seq<seq<EdgeLink>>, f: nat, skip: int, reset: bool) returns (edges: seq<EdgeLink>)
    requires f < |lists|
    ensures edges == LinkedEdges(lists, f, skip, reset)
  {
    edges := lists[f];
    if reset {
      for e := 0 to |edges|
        invariant |edges| == |lists[f]|
        invariant forall e' :: 0 <= e' < |edges| ==> edges[e'] == ScannedEdge(lists, f, skip, reset, e', 0) || e' >= e
        invariant forall e' :: e <= e' < |edges| ==> edges[e'] == lists[f][e']
      {
        edges := edges[e := edges[e].(face := Unset, edge := Unset)];
      }
    }
    assert forall e :: 0 <= e < |edges| ==> edges[e] == ScannedEdge(lists, f, skip, reset, e, 0);
    for g := 0 to |lists|
      invariant |edges| == |lists[f]|
      invariant forall e :: 0 <= e < |edges| ==> edges[e] == ScannedEdge(lists, f, skip, reset, e, g)
    {
      if g != skip {
        edges := LinkAgainstFace(lists, f, skip, reset, g, edges);
      }
    }
  }

  /** The two inner loops: every edge of face f against every edge of face g. */
  method LinkAgainstFace(lists: seq<seq<EdgeLink>>, f: nat, skip: int, reset: bool, g: nat, edges0: seq<EdgeLink>)
    returns (edges: seq<EdgeLink>)
    requires f < |lists| && g < |lists| && g != skip && |edges0| == |lists[f]|
    requires forall e :: 0 <= e < |edges0| ==> edges0[e] == ScannedEdge(lists, f, skip, reset, e, g)
    ensures |edges| == |lists[f]|
    ensures forall e :: 0 <= e < |edges| ==> edges[e] == ScannedEdge(lists, f, skip, reset, e, g + 1)
  {
    edges := edges0;
    for e := 0 to |edges|
      invariant |edges| == |lists[f]|
      invariant forall e' :: 0 <= e' < e ==> edges[e'] == ScannedEdge(lists, f, skip, reset, e', g + 1)
      invariant forall e' :: e <= e' < |edges| ==> edges[e'] == ScannedEdge(lists, f, skip, reset, e', g)
    {
      var ed := edges[e];
      var before := ScanFaces(lists, skip, ed.tail, ed.head, g, StartLink(lists[f][e], reset));
      for e2 := 0 to |lists[g]|
        invariant ed.tail == lists[f][e].tail && ed.head == lists[f][e].head
        invariant (ed.face, ed.edge) == ScanEdges(lists[g], ed.tail, ed.head, g, e2, before)
      {
        if ed.tail == lists[g][e2].head && ed.head == lists[g][e2].tail {
          ed := ed.(face := g, edge := e2);
        }
      }
      edges := edges[e := ed];
    }
  }

  /** A linked edge names a face and edge running the other way, the last
    * one in scan order, or keeps its starting link when none does. */
  lemma LinkedEdgeMeaning(lists: seq<seq<EdgeLink>>, f: nat, skip: int, reset: bool, e: nat)
    requires f < |lists| && e < |lists[f]|
    ensures var ed := lists[f][e];
      var l := LinkedEdges(lists, f, skip, reset)[e];
      l.tail == ed.tail && l.head == ed.head &&
      (((l.face, l.edge) == StartLink(ed, reset) &&
        (forall g, e2 :: !ReverseAt(lists, skip, ed.tail, ed.head, g, e2))) ||
       (ReverseAt(lists, skip, ed.tail, ed.head, l.face, l.edge) &&
        (forall g, e2 :: ReverseAt(lists, skip, ed.tail, ed.head, g, e2) ==> g < l.face || (g == l.face && e2 <= l.edge))))
  {
    var ed := lists[f][e];
    ScanFacesIsLastMatch(lists, skip, ed.tail, ed.head, |lists|, StartLink(ed, reset));
  }

  /** A triangle with three distinct vertices never links to itself. */
  lemma TriangleNotSelfLinked(faces: seq<TriFace>, f: nat, e: nat)
    requires f < |faces| && e < 3 && |faces[f].vIndex| == 3
    requires faces[f].edges == ClosedEdges(faces[f].vIndex)
    requires faces[f].vIndex[0] != faces[f].vIndex[1] && faces[f].vIndex[1] != faces[f].vIndex[2] &&
             faces[f].vIndex[0] != faces[f].vIndex[2]
    ensures LinkTriangles(faces)[f].edges[e].face != f
  {
    var lists := TriEdgeLists(faces);
    TriangleEdgesListed(faces[f].vIndex);
    LinkedEdgeMeaning(lists, f, Unset, true, e);
  }

  /** When a directed edge occurs once in the whole list, the edge it links
    * to links straight back to it. For polygons (which skip themselves and
    * keep old links) this needs the edge to start unlinked. */
  lemma LinkReciprocal(lists: seq<seq<EdgeLink>>, selfSkip: bool, f: nat, e: nat)
    requires f < |lists| && e < |lists[f]|
    requires selfSkip ==> lists[f][e].face == Unset
    requires forall g, e2 ::
      (0 <= g < |lists| && 0 <= e2 < |lists[g]| &&
       lists[g][e2].tail == lists[f][e].tail && lists[g][e2].head == lists[f][e].head) ==> g == f && e2 == e
    ensures var l := LinkedEdges(lists, f, if selfSkip then f else Unset, !selfSkip)[e];
      0 <= l.face < |lists| && 0 <= l.edge < |lists[l.face]| ==>
        (var back := LinkedEdges(lists, l.face, if selfSkip then l.face else Unset, !selfSkip)[l.edge];
         back.face == f && back.edge == e)
  {
    var skip := if selfSkip then f else Unset;
    var ed := lists[f][e];
    var l := LinkedEdges(lists, f, skip, !selfSkip)[e];
    LinkedEdgeMeaning(lists, f, skip, !selfSkip, e);
    if ReverseAt(lists, skip, ed.tail, ed.head, l.face, l.edge) {
      var g := l.face;
      var skip' := if selfSkip then g else Unset;
      assert ReverseAt(lists, skip', lists[g][l.edge].tail, lists[g][l.edge].head, f, e);
      LinkedEdgeMeaning(lists, g, skip', !selfSkip, l.edge);
    }
  }

  /** Once a record has thrown, the import stays where it stopped. */
  lemma {:induction false} ParseStopsAtFailure(s: MeshState, recs: seq<ObjRecord>, i: nat, asPoly: bool)
    requires i <= |recs| && ParseRecords(s, recs[..i], asPoly).1
    ensures ParseRecords(s, recs, asPoly) == ParseRecords(s, recs[..i], asPoly)
    decreases |recs| - i
  {
    if i < |recs| {
      assert recs[..i + 1][..i] == recs[..i];
      ParseStopsAtFailure(s, recs, i + 1, asPoly);
    } else {
      assert recs[..i] == recs;
    }
  }

  /** Importing two runs of records is importing the first, then the
    * second from where the first left off. */
  lemma {:induction false} ParseAppend(s: MeshState, a: seq<ObjRecord>, b: seq<ObjRecord>, asPoly: bool)
    ensures ParseRecords(s, a + b, asPoly) ==
      (var p := ParseRecords(s, a, asPoly); if p.1 then p else ParseRecords(p.0, b, asPoly))
    decreases |b|
  {
    if b == [] {
      assert a + b == a;
    } else {
      var b' := b[..|b| - 1];
      assert (a + b)[..|a + b| - 1] == a + b';
      assert (a + b)[|a + b| - 1] == b[|b| - 1];
      ParseAppend(s, a, b', asPoly);
    }
  }

  lemma ParseSingle(s: MeshState, r: ObjRecord, asPoly: bool)
    ensures ParseRecords(s, [r], asPoly) == ParseStep(s, r, asPoly)
  {
    assert [r][..0] == [];
  }

  // ---------------------------------------------------------------------
  // Export: the same records, indices written back 1-based

  function VertexRecords(vs: seq<Point>): seq<ObjRecord>
  {
    if vs == [] then [] else VertexRecords(vs[..|vs| - 1]) + [VertexLine(vs[|vs| - 1])]
  }

  function EdgeRecords(ls: seq<Edge>): seq<ObjRecord>
  {
    if ls == [] then []
    else EdgeRecords(ls[..|ls| - 1]) + [EdgeLine(ls[|ls| - 1].vIndex0 + 1, ls[|ls| - 1].vIndex1 + 1)]
  }

  /** The words "%d//1" of an exported face: index plus one, normal 1. */
  function ExportWords(vs: seq<int>): (w: seq<FaceWord>)
    ensures |w| == |vs|
  {
    seq(|vs|, k requires 0 <= k < |vs| => FaceWord(vs[k] + 1, None, 1, 2))
  }

  function TriangleRecords(fs: seq<TriFace>): seq<ObjRecord>
  {
    if fs == [] then [] else TriangleRecords(fs[..|fs| - 1]) + [FaceLine(ExportWords(fs[|fs| - 1].vIndex))]
  }

  function PolygonRecords(ps: seq<PolyFace>): seq<ObjRecord>
  {
    if ps == [] then [] else PolygonRecords(ps[..|ps| - 1]) + [FaceLine(ExportWords(ps[|ps| - 1].vIndices))]
  }

  /** A comment, the object name, the vertices, the line elements, then
    * (when there are any) the first triangle's normal, "s off" and the
    * triangles, then the same for the polygons. */
  function ExportRecords(s: MeshState): seq<ObjRecord>
  {
    [OtherLine("#"), OtherLine("o")] + VertexRecords(s.vertices) + EdgeRecords(s.lines) +
    TriangleBlock(s.faces) + PolygonBlock(s.polyFaces)
  }

  lemma {:induction false} ExportWordsSlashes(vs: seq<int>)
    ensures SlashTotal(ExportWords(vs)) == 2 * |vs|
  {
    if vs != [] {
      var w := ExportWords(vs);
      assert w[..|w| - 1] == ExportWords(vs[..|vs| - 1]);
      ExportWordsSlashes(vs[..|vs| - 1]);
    }
  }

  /** Importing an exported triangle gives back its vertex indices (and
    * normal 0, the one normal the export writes). */
  lemma ExportedTriangleReadBack(vs: seq<int>)
    requires |vs| == 3
    ensures NumberOfVerts(ExportWords(vs)) == 3
    ensures TriangleFace(ExportWords(vs)).vIndex == vs
    ensures TriangleFace(ExportWords(vs)).nIndex == [0, 0, 0]
  {
    ExportWordsSlashes(vs);
  }

  /** Importing an exported polygon gives back its vertex indices. */
  lemma ExportedPolygonReadBack(vs: seq<int>)
    ensures NumberOfVerts(ExportWords(vs)) == |vs|
    ensures PolygonFace(ExportWords(vs), |vs|).vIndices == vs
  {
    ExportWordsSlashes(vs);
  }

  lemma {:induction false} ParseVertexRecords(s: MeshState, vs: seq<Point>, asPoly: bool)
    ensures ParseRecords(s, VertexRecords(vs), asPoly) == (s.(vertices := s.vertices + vs), false)
  {
    if vs == [] {
      assert s.vertices + vs == s.vertices;
    } else {
      var vs' := vs[..|vs| - 1];
      var v := vs[|vs| - 1];
      ParseAppend(s, VertexRecords(vs'), [VertexLine(v)], asPoly);
      ParseVertexRecords(s, vs', asPoly);
      var s' := s.(vertices := s.vertices + vs');
      ParseSingle(s', VertexLine(v), asPoly);
      assert (s.vertices + vs') + [v] == s.vertices + vs by {
        assert vs' + [v] == vs;
      }
    }
  }

  predicate LinesInRange(ls: seq<Edge>, n: nat)
  {
    forall i :: 0 <= i < |ls| ==> 0 <= ls[i].vIndex0 < n && 0 <= ls[i].vIndex1 < n
  }

  /** A line element whose two vertices are already read is appended. */
  lemma ParseEdgeLine(s: MeshState, l: Edge, asPoly: bool)
    requires 0 <= l.vIndex0 < |s.vertices| && 0 <= l.vIndex1 < |s.vertices|
    ensures ParseRecords(s, [EdgeLine(l.vIndex0 + 1, l.vIndex1 + 1)], asPoly) == (s.(lines := s.lines + [l]), false)
  {
    ParseSingle(s, EdgeLine(l.vIndex0 + 1, l.vIndex1 + 1), asPoly);
  }

  lemma {:induction false} ParseEdgeRecords(s: MeshState, ls: seq<Edge>, asPoly: bool)
    requires LinesInRange(ls, |s.vertices|)
    ensures ParseRecords(s, EdgeRecords(ls), asPoly) == (s.(lines := s.lines + ls), false)
  {
    if ls == [] {
      assert s.lines + ls == s.lines;
    } else {
      var ls' := ls[..|ls| - 1];
      var l := ls[|ls| - 1];
      var rec := EdgeLine(l.vIndex0 + 1, l.vIndex1 + 1);
      assert EdgeRecords(ls) == EdgeRecords(ls') + [rec];
      ParseAppend(s, EdgeRecords(ls'), [rec], asPoly);
      assert LinesInRange(ls', |s.vertices|) by {
        forall i | 0 <= i < |ls'|
          ensures 0 <= ls'[i].vIndex0 < |s.vertices| && 0 <= ls'[i].vIndex1 < |s.vertices|
        {
          assert ls'[i] == ls[i];
        }
      }
      ParseEdgeRecords(s, ls', asPoly);
      var s' := s.(lines := s.lines + ls');
      ParseEdgeLine(s', l, asPoly);
      assert (s.lines + ls') + [l] == s.lines + ls by {
        assert ls' + [l] == ls;
      }
    }
  }

  /** The triangles an export reads back as. */
  function ReadBackTriangles(fs: seq<TriFace>): (r: seq<TriFace>)
    ensures |r| == |fs|
  {
    seq(|fs|, i requires 0 <= i < |fs| => TriangleFace(ExportWords(fs[i].vIndex)))
  }

  function ReadBackPolygons(ps: seq<PolyFace>): (r: seq<PolyFace>)
    ensures |r| == |ps|
  {
    seq(|ps|, i requires 0 <= i < |ps| => PolygonFace(ExportWords(ps[i].vIndices), |ps[i].vIndices|))
  }

  lemma ReadBackTrianglesSnoc(fs: seq<TriFace>)
    requires fs != []
    ensures ReadBackTriangles(fs) ==
      ReadBackTriangles(fs[..|fs| - 1]) + [TriangleFace(ExportWords(fs[|fs| - 1].vIndex))]
  {
  }

  lemma ReadBackPolygonsSnoc(ps: seq<PolyFace>)
    requires ps != []
    ensures ReadBackPolygons(ps) ==
      ReadBackPolygons(ps[..|ps| - 1]) + [PolygonFace(ExportWords(ps[|ps| - 1].vIndices), |ps[|ps| - 1].vIndices|)]
  {
  }

  lemma {:induction false} ParseTriangleRecords(s: MeshState, fs: seq<TriFace>)
    requires TrianglesWellFormed(fs)
    ensures ParseRecords(s, TriangleRecords(fs), false) == (s.(faces := s.faces + ReadBackTriangles(fs)), false)
  {
    if fs == [] {
      assert s.faces + ReadBackTriangles(fs) == s.faces;
    } else {
      var fs' := fs[..|fs| - 1];
      var f := fs[|fs| - 1];
      var t := TriangleFace(ExportWords(f.vIndex));
      var rec := FaceLine(ExportWords(f.vIndex));
      ParseAppend(s, TriangleRecords(fs'), [rec], false);
      ParseTriangleRecords(s, fs');
      var s' := s.(faces := s.faces + ReadBackTriangles(fs'));
      ParseSingle(s', rec, false);
      ExportedTriangleReadBack(f.vIndex);
      assert ParseStep(s', rec, false) == (s'.(faces := s'.faces + [t]), false);
      ReadBackTrianglesSnoc(fs);
      assert (s.faces + ReadBackTriangles(fs')) + [t] == s.faces + ReadBackTriangles(fs);
    }
  }

  /** One exported polygon line, read on its own, adds its polygon. */
  lemma ParsePolygonLine(s: MeshState, vs: seq<int>)
    requires |vs| != 3
    ensures ParseRecords(s, [FaceLine(ExportWords(vs))], false) ==
      (s.(polyFaces := s.polyFaces + [PolygonFace(ExportWords(vs), |vs|)]), false)
  {
    ParseSingle(s, FaceLine(ExportWords(vs)), false);
    ExportedPolygonReadBack(vs);
  }

  lemma {:induction false} ParsePolygonRecords(s: MeshState, ps: seq<PolyFace>)
    requires forall i :: 0 <= i < |ps| ==> |ps[i].vIndices| != 3
    ensures ParseRecords(s, PolygonRecords(ps), false) == (s.(polyFaces := s.polyFaces + ReadBackPolygons(ps)), false)
  {
    if ps == [] {
      assert s.polyFaces + ReadBackPolygons(ps) == s.polyFaces;
    } else {
      var ps' := ps[..|ps| - 1];
      var p := ps[|ps| - 1];
      var q := PolygonFace(ExportWords(p.vIndices), |p.vIndices|);
      var rec := FaceLine(ExportWords(p.vIndices));
      ParseAppend(s, PolygonRecords(ps'), [rec], false);
      ParsePolygonRecords(s, ps');
      var s' := s.(polyFaces := s.polyFaces + ReadBackPolygons(ps'));
      ParsePolygonLine(s', p.vIndices);
      ReadBackPolygonsSnoc(ps);
      assert (s.polyFaces + ReadBackPolygons(ps')) + [q] == s.polyFaces + ReadBackPolygons(ps);
    }
  }

  /** The block an export writes for a non-empty list of triangles. */
  function TriangleBlock(fs: seq<TriFace>): seq<ObjRecord>
  {
    if |fs| > 0 then [NormalLine(fs[0].geometricNormal), OtherLine("s")] + TriangleRecords(fs) else []
  }

  function PolygonBlock(ps: seq<PolyFace>): seq<ObjRecord>
  {
    if |ps| > 0 then [NormalLine(ps[0].geometricNormal), OtherLine("s")] + PolygonRecords(ps) else []
  }

  /** A normal line followed by "s off": one more normal. */
  lemma ParseNormalHeader(s: MeshState, n: Point, rest: seq<ObjRecord>, asPoly: bool)
    ensures ParseRecords(s, [NormalLine(n), OtherLine("s")] + rest, asPoly) ==
      ParseRecords(s.(normals := s.normals + [n]), rest, asPoly)
  {
    ParseAppend(s, [NormalLine(n), OtherLine("s")], rest, asPoly);
    ParseAppend(s, [NormalLine(n)], [OtherLine("s")], asPoly);
    assert [NormalLine(n), OtherLine("s")] == [NormalLine(n)] + [OtherLine("s")];
    ParseSingle(s, NormalLine(n), asPoly);
    ParseSingle(s.(normals := s.normals + [n]), OtherLine("s"), asPoly);
  }

  lemma ParseTriangleBlock(s: MeshState, fs: seq<TriFace>)
    requires TrianglesWellFormed(fs)
    ensures var p := ParseRecords(s, TriangleBlock(fs), false);
      !p.1 && p.0.vertices == s.vertices && p.0.lines == s.lines && p.0.polyFaces == s.polyFaces &&
      p.0.faces == s.faces + ReadBackTriangles(fs) && |p.0.normals| == |s.normals| + (if |fs| > 0 then 1 else 0)
  {
    if |fs| > 0 {
      ParseNormalHeader(s, fs[0].geometricNormal, TriangleRecords(fs), false);
      ParseTriangleRecords(s.(normals := s.normals + [fs[0].geometricNormal]), fs);
    } else {
      assert s.faces + ReadBackTriangles(fs) == s.faces;
    }
  }

  lemma ParsePolygonBlock(s: MeshState, ps: seq<PolyFace>)
    requires forall i :: 0 <= i < |ps| ==> |ps[i].vIndices| != 3
    ensures var p := ParseRecords(s, PolygonBlock(ps), false);
      !p.1 && p.0.vertices == s.vertices && p.0.lines == s.lines && p.0.faces == s.faces &&
      p.0.polyFaces == s.polyFaces + ReadBackPolygons(ps) && |p.0.normals| >= |s.normals|
  {
    if |ps| > 0 {
      ParseNormalHeader(s, ps[0].geometricNormal, PolygonRecords(ps), false);
      ParsePolygonRecords(s.(normals := s.normals + [ps[0].geometricNormal]), ps);
    } else {
      assert s.polyFaces + ReadBackPolygons(ps) == s.polyFaces;
    }
  }

  /** The comment, the object name, the vertices and the line elements of
    * an export read back into an empty mesh. */
  lemma ParseExportHead(s: MeshState)
    requires LinesInRange(s.lines, |s.vertices|)
    ensures ParseRecords(Empty, [OtherLine("#"), OtherLine("o")] + VertexRecords(s.vertices) + EdgeRecords(s.lines), false)
      == (Empty.(vertices := s.vertices, lines := s.lines), false)
  {
    var hdr := [OtherLine("#"), OtherLine("o")];
    var vr := VertexRecords(s.vertices);
    var er := EdgeRecords(s.lines);
    assert ParseRecords(Empty, hdr, false) == (Empty, false) by {
      assert hdr == [OtherLine("#")] + [OtherLine("o")];
      ParseAppend(Empty, [OtherLine("#")], [OtherLine("o")], false);
      ParseSingle(Empty, OtherLine("#"), false);
      ParseSingle(Empty, OtherLine("o"), false);
    }
    var s2 := Empty.(vertices := s.vertices);
    assert ParseRecords(Empty, hdr + vr, false) == (s2, false) by {
      ParseAppend(Empty, hdr, vr, false);
      ParseVertexRecords(Empty, s.vertices, false);
      assert Empty.vertices + s.vertices == s.vertices;
    }
    ParseAppend(Empty, hdr + vr, er, false);
    ParseEdgeRecords(s2, s.lines, false);
    assert s2.lines + s.lines == s.lines;
  }

  /** Read-back triangles keep their vertex indices. */
  lemma ReadBackTrianglesIndices(fs: seq<TriFace>)
    requires TrianglesWellFormed(fs)
    ensures forall i :: 0 <= i < |fs| ==> ReadBackTriangles(fs)[i].vIndex == fs[i].vIndex
  {
    forall i | 0 <= i < |fs|
      ensures ReadBackTriangles(fs)[i].vIndex == fs[i].vIndex
    {
      ExportedTriangleReadBack(fs[i].vIndex);
    }
  }

  /** Read-back polygons keep their vertex indices. */
  lemma ReadBackPolygonsIndices(ps: seq<PolyFace>)
    ensures forall i :: 0 <= i < |ps| ==> ReadBackPolygons(ps)[i].vIndices == ps[i].vIndices
  {
    forall i | 0 <= i < |ps|
      ensures ReadBackPolygons(ps)[i].vIndices == ps[i].vIndices
    {
      ExportedPolygonReadBack(ps[i].vIndices);
    }
  }

  /** Importing an exported mesh into an empty one (triangles kept as
    * triangles) gives back as many vertices, the same line elements, and
    * the same vertex indices on every triangle and every polygon, provided
    * the line elements name existing vertices and no polygon has exactly
    * three vertices (which would come back as a triangle). */
  lemma ObjRoundTrip(s: MeshState)
    requires TrianglesWellFormed(s.faces)
    requires LinesInRange(s.lines, |s.vertices|)
    requires forall i :: 0 <= i < |s.polyFaces| ==> |s.polyFaces[i].vIndices| != 3
    ensures var p := ParseRecords(Empty, ExportRecords(s), false);
      !p.1 && |p.0.vertices| == |s.vertices| && p.0.lines == s.lines &&
      |p.0.faces| == |s.faces| && (forall i :: 0 <= i < |s.faces| ==> p.0.faces[i].vIndex == s.faces[i].vIndex) &&
      |p.0.polyFaces| == |s.polyFaces| &&
      (forall i :: 0 <= i < |s.polyFaces| ==> p.0.polyFaces[i].vIndices == s.polyFaces[i].vIndices)
  {
    var head := [OtherLine("#"), OtherLine("o")] + VertexRecords(s.vertices) + EdgeRecords(s.lines);
    var tr := TriangleBlock(s.faces);
    var pr := PolygonBlock(s.polyFaces);
    assert ExportRecords(s) == (head + tr) + pr;
    ParseExportHead(s);
    var s3 := Empty.(vertices := s.vertices, lines := s.lines);
    var q3 := ParseRecords(s3, tr, false);
    ParseTriangleBlock(s3, s.faces);
    ParseAppend(Empty, head, tr, false);
    var q4 := ParseRecords(q3.0, pr, false);
    ParsePolygonBlock(q3.0, s.polyFaces);
    ParseAppend(Empty, head + tr, pr, false);
    ReadBackTrianglesIndices(s.faces);
    ReadBackPolygonsIndices(s.polyFaces);
  }

  /** The triangle half of UpdateInternalConnectivity, face by face. */
  method LinkAllTriangles(faces0: seq<TriFace>) returns (faces: seq<TriFace>)
    requires TrianglesWellFormed(faces0)
    ensures faces == LinkTriangles(faces0) && TrianglesWellFormed(faces)
  {
    faces := faces0;
    ghost var lists0 := TriEdgeLists(faces0);
    for f := 0 to |faces|
      invariant |faces| == |faces0|
      invariant SameEnds(TriEdgeLists(faces), lists0)
      invariant forall g :: 0 <= g < f ==> faces[g] == LinkTriangles(faces0)[g]
      invariant forall g :: f <= g < |faces| ==> faces[g] == faces0[g]
      invariant TrianglesWellFormed(faces)
    {
      var linked := LinkFaceEdges(TriEdgeLists(faces), f, Unset, true);
      LinkedEdgesEnds(TriEdgeLists(faces), lists0, f, Unset, true);
      LinkKeepsEnds(TriEdgeLists(faces), lists0, f, Unset, true);
      faces := faces[f := faces[f].(edges := linked)];
    }
  }

  /** The polygon half: each polygon against every other one. */
  method LinkAllPolygons(polys0: seq<PolyFace>) returns (polys: seq<PolyFace>)
    ensures polys == LinkPolygons(polys0)
  {
    polys := polys0;
    ghost var lists0 := PolyEdgeLists(polys0);
    for f := 0 to |polys|
      invariant |polys| == |polys0|
      invariant SameEnds(PolyEdgeLists(polys), lists0)
      invariant forall g :: 0 <= g < f ==> polys[g] == LinkPolygons(polys0)[g]
      invariant forall g :: f <= g < |polys| ==> polys[g] == polys0[g]
    {
      var linked := LinkFaceEdges(PolyEdgeLists(polys), f, f, false);
      LinkedEdgesEnds(PolyEdgeLists(polys), lists0, f, f, false);
      LinkKeepsEnds(PolyEdgeLists(polys), lists0, f, f, false);
      polys := polys[f := polys[f].(edges := linked)];
    }
  }

  /** The "v" lines. */
  method WriteVertices(vs: seq<Point>) returns (vr: seq<ObjRecord>)
    ensures vr == VertexRecords(vs)
  {
    vr := [];
    for v := 0 to |vs|
      invariant vr == VertexRecords(vs[..v])
    {
      assert vs[..v + 1][..v] == vs[..v];
      vr := vr + [VertexLine(vs[v])];
    }
    assert vs[..|vs|] == vs;
  }

  /** The "l" lines, indices plus one. */
  method WriteEdges(ls: seq<Edge>) returns (er: seq<ObjRecord>)
    ensures er == EdgeRecords(ls)
  {
    er := [];
    for ell := 0 to |ls|
      invariant er == EdgeRecords(ls[..ell])
    {
      assert ls[..ell + 1][..ell] == ls[..ell];
      er := er + [EdgeLine(ls[ell].vIndex0 + 1, ls[ell].vIndex1 + 1)];
    }
    assert ls[..|ls|] == ls;
  }

  /** The "f" lines of the triangles. */
  method WriteTriangles(fs: seq<TriFace>) returns (tr: seq<ObjRecord>)
    requires TrianglesWellFormed(fs)
    ensures tr == TriangleRecords(fs)
  {
    tr := [];
    for f := 0 to |fs|
      invariant tr == TriangleRecords(fs[..f])
    {
      assert fs[..f + 1][..f] == fs[..f];
      var vi := fs[f].vIndex;
      var words := [FaceWord(vi[0] + 1, None, 1, 2), FaceWord(vi[1] + 1, None, 1, 2), FaceWord(vi[2] + 1, None, 1, 2)];
      assert words == ExportWords(vi);
      tr := tr + [FaceLine(words)];
    }
    assert fs[..|fs|] == fs;
  }

  /** The "f" lines of the polygons, one word per vertex. */
  method WritePolygons(ps: seq<PolyFace>) returns (pr: seq<ObjRecord>)
    ensures pr == PolygonRecords(ps)
  {
    pr := [];
    for f := 0 to |ps|
      invariant pr == PolygonRecords(ps[..f])
    {
      assert ps[..f + 1][..f] == ps[..f];
      var vs := ps[f].vIndices;
      var words := [];
      for v := 0 to |vs|
        invariant words == ExportWords(vs[..v])
      {
        words := words + [FaceWord(vs[v] + 1, None, 1, 2)];
      }
      assert vs[..|vs|] == vs;
      pr := pr + [FaceLine(words)];
    }
    assert ps[..|ps|] == ps;
  }

  // ---------------------------------------------------------------------
  // The mesh object

  class SurfaceMesh {
    var vertices: seq<Point>
    var texVertices: seq<Point>
    var normals: seq<Point>
    var faces: seq<TriFace>
    var polyFaces: seq<PolyFace>
    var lines: seq<Edge>

    function State(): MeshState
      reads this
    {
      MeshState(vertices, texVertices, normals, faces, polyFaces, lines)
    }

    predicate Valid()
      reads this
    {
      TrianglesWellFormed(faces)
    }

    constructor()
      ensures Valid() && State() == Empty
    {
      vertices := [];
      texVertices := [];
      normals := [];
      faces := [];
      polyFaces := [];
      lines := [];
    }

    /** ImportFromOBJFile over the records of the file: every record in
      * turn, then the geometry pass (whose vertices.at and normals.at throw
      * out_of_range on a bad triangle index), then the connectivity pass. */
    method ImportFromOBJFile(records: seq<ObjRecord>, asPoly: bool) returns (r: Result<()>)
      requires Valid()
      modifies this
      ensures Valid()
      ensures var p := ParseRecords(old(State()), records, asPoly);
        (p.1 ==> r == Failure(OutOfRange) && State() == p.0) &&
        (!p.1 && !TriangleIndicesInRange(p.0) ==> r == Failure(OutOfRange) && State() == p.0) &&
        (!p.1 && TriangleIndicesInRange(p.0) ==> r == Success(()) && State() == Linked(p.0))
    {
      ghost var s0 := State();
      var i := 0;
      while i < |records|
        invariant 0 <= i <= |records|
        invariant Valid()
        invariant ParseRecords(s0, records[..i], asPoly) == (State(), false)
      {
        assert records[..i + 1][..i] == records[..i];
        var failed := ReadRecord(records[i], asPoly);
        if failed {
          ParseStopsAtFailure(s0, records, i + 1, asPoly);
          return Failure(OutOfRange);
        }
        i := i + 1;
      }
      assert records[..|records|] == records;
      var ok := TriangleIndicesChecked();
      if !ok {
        return Failure(OutOfRange);
      }
      UpdateInternalConnectivity();
      return Success(());
    }

    /** One pass of the import loop. */
    method ReadRecord(rec: ObjRecord, asPoly: bool) returns (failed: bool)
      requires Valid()
      modifies this
      ensures Valid()
      ensures ParseStep(old(State()), rec, asPoly) == (if failed then old(State()) else State(), failed)
      ensures failed ==> State() == old(State())
    {
      failed := false;
      match rec {
        case VertexLine(p) =>
          vertices := vertices + [p];
        case TexVertexLine(p) =>
          texVertices := texVertices + [p];
        case NormalLine(p) =>
          normals := normals + [p];
        case FaceLine(words) =>
          var nv := NumberOfVerts(words);
          if nv == 3 && !asPoly {
            faces := faces + [TriangleFace(words)];
          } else {
            var face := ReadPolygonFace(words, nv);
            polyFaces := polyFaces + [face];
          }
        case EdgeLine(a, b) =>
          if 0 <= a - 1 < |vertices| && 0 <= b - 1 < |vertices| {
            lines := lines + [Edge(a - 1, b - 1)];
          } else {
            failed := true;
          }
        case OtherLine(_) =>
        case BlankLine =>
          failed := true;
      }
    }

    /** The index checks of the geometry pass. */
    method TriangleIndicesChecked() returns (ok: bool)
      requires Valid()
      ensures ok == TriangleIndicesInRange(State())
    {
      for i := 0 to |faces|
        invariant forall i' :: 0 <= i' < i ==> TriangleInRange(State(), i')
      {
        var f := faces[i];
        for k := 0 to 3
          invariant forall k' :: 0 <= k' < k ==> 0 <= f.vIndex[k'] < |vertices| && 0 <= f.nIndex[k'] < |normals|
        {
          if !(0 <= f.vIndex[k] < |vertices|) || !(0 <= f.nIndex[k] < |normals|) {
            assert !TriangleInRange(State(), i);
            return false;
          }
        }
      }
      return true;
    }

    /** UpdateInternalConnectivity: every triangle, then every polygon. */
    method UpdateInternalConnectivity()
      requires Valid()
      modifies this
      ensures Valid()
      ensures faces == LinkTriangles(old(faces)) && polyFaces == LinkPolygons(old(polyFaces))
      ensures vertices == old(vertices) && texVertices == old(texVertices) && normals == old(normals) &&
              lines == old(lines)
    {
      faces := LinkAllTriangles(faces);
      polyFaces := LinkAllPolygons(polyFaces);
    }

    /** ExportToOBJFile: the records written, in order. */
    method ExportToOBJFile() returns (out: seq<ObjRecord>)
      requires Valid()
      ensures out == ExportRecords(State())
    {
      out := [OtherLine("#"), OtherLine("o")];
      var vr := WriteVertices(vertices);
      var er := WriteEdges(lines);
      out := out + vr + er;
      if |faces| > 0 {
        var tr := WriteTriangles(faces);
        out := out + ([NormalLine(faces[0].geometricNormal), OtherLine("s")] + tr);
      }
      if |polyFaces| > 0 {
        var pr := WritePolygons(polyFaces);
        out := out + ([NormalLine(polyFaces[0].geometricNormal), OtherLine("s")] + pr);
      }
    }
  }
}
