# ChiTech core data structures, mesh topology, parsers and validation in Dafny

This project models the sequential core of the ChiTech framework. Each part
is written in the same form as the C++ it models, and the model proves
properties of it. The parts are:

- **NDArray** (`NDArray.dfy`): the row-major multi-dimensional array. Its
  constructors compute strides and sizes. `MapNDtoLin` throws
  `invalid_argument` and `out_of_range`; `at` is `noexcept`, so the same
  checks inside it end the program.
- **CHI_VECTOR** (`ChiVector.dfy`): the growable pointer stack with slot
  reuse, capacity doubling, pop, clear and empty.
- **DirectedGraph** (`DirectedGraph.dfy`): vertices with mirrored
  upstream/downstream edge sets. It includes vertex and edge insertion and
  removal, depth-first search, Tarjan's strongly connected components, Kahn's
  topological sort, the Eades–Lin–Smyth feedback-arc-set heuristic and
  cyclic-dependency removal.
- **OrthogonalMeshGenerator** (`OrthoMesh.dfy`, `MeshTypes.dfy`): input
  validation and the 1D, 2D and 3D unpartitioned orthogonal meshes, with
  their vertex ids, cells, faces, neighbours and boundary ids.
- **MeshContinuum utilities** (`MeshContinuum.dfy`, `OrderedSets.dfy`): the
  grid-face histogram, the cell locality and dimension queries,
  associated-vertex matching, `MapCellFace`, `MakeBoundaryID` and
  `GetIJKInfo`.
- **SurfaceMesh** (`SurfaceMesh.dfy`): the OBJ import of vertices, edges,
  triangles and polygons, the internal connectivity pass, and the OBJ export
  with its 1-based indices.
- **Chi cross-section reader** (`XSBlocks.dfy`, `ChiXS.dfy`): the block
  readers for 1D data, group structures and transfer matrices, the keyword
  dispatch, and the validation and derived quantities of
  `SingleStateMGXS::MakeFromChiXSFile`.
- **ParallelSTLVector** (`ParallelVector.dfy`): the local half of the
  distributed vector. It covers extents, ownership, element access, the
  vector arithmetic, the set/add operation caches and the local part of
  `Assemble`.
- **Varying** (`Varying.dfy`): the tagged value type, with its integer casts,
  comparisons and typed reads.
- **InputParameters** (`InputParameters.dfy`): the parameter tables,
  `operator+=`, the `Mark*` tags, range constraints and the staged
  validation in `AssignParameters`.

`Wrappers.dfy` holds the `Result`/`Option` types. Exceptions, and
`Chi::Exit`, are values of `Exception`.

Errors the source raises are modelled as `Failure` results; a throw that
escapes a `noexcept` function, or a call to `Chi::Exit`, is the
`ProgramExit` failure. Where the model applies a corrected branch in place
of the code as written, "## Findings" shows both and "## Left out" names
the members affected. Operations
that change an object in place are methods of a class whose fields hold the
object's state. Pure computations are functions, and their properties are
lemmas.

## Model

| member | source | states |
|---|---|---|
| NDArrays.OffsetInBounds | framework/data_types/ndarray.h:597-600 | every in-range index tuple maps to a linear offset below the product of the dimensions |
| NDArrays.ComputeLayout | framework/data_types/ndarray.h:66-75 | the size is the product of all dimensions and stride i is the product of the dimensions after i |
| NDArrays.NDArray.Empty | framework/data_types/ndarray.h:317-321 | the default array has rank 0, size 0 and no dimensions |
| NDArrays.NDArray.constructor | framework/data_types/ndarray.h:49-80 | the array has the given dimensions, the row-major layout, and every element 0 |
| NDArrays.NDArray.Filled | framework/data_types/ndarray.h:185-216 | the array has the given dimensions and layout, and every element equals the value |
| NDArrays.NDArray.Copy | framework/data_types/ndarray.h:326-347 | the copy has the same rank, dimensions, strides and size, and a fresh buffer holding the same elements |
| NDArrays.NDArray.Set | framework/data_types/ndarray.h:372-376 | every element becomes the value and the layout is kept |
| NDArrays.NDArray.Swap | framework/data_types/ndarray.h:381-388 | rank, dimensions, strides, size and buffer are exchanged between the two arrays |
| NDArrays.NDArray.Dimension | framework/data_types/ndarray.h:415-422 | the result lists the array's dimensions, one per rank |
| NDArrays.NDArray.Resize | framework/data_types/ndarray.h:434-447 | the array becomes a fresh zero-filled array of the new dimensions |
| NDArrays.NDArray.MapNDtoLin | framework/data_types/ndarray.h:579-601 | a wrong argument count is an invalid argument; an index at or above its dimension is out of range; otherwise the result is the row-major offset, which is below the size |
| NDArrays.NDArray.At | framework/data_types/ndarray.h:547-569 | the element at the row-major offset when every index is in range; a rank mismatch or an index out of range inside the noexcept `at` ends the program (ProgramExit), exactly when the indices are not in range |
| NDArrays.NDArray.AtAssign | framework/data_types/ndarray.h:547-569 | exactly the addressed element changes when the indices are in range; otherwise the program ends (ProgramExit) with nothing written |
| NDArrays.FillArray | framework/data_types/ndarray.h:372-376 | every slot of the buffer holds the value |
| ChiVectors.FirstNullFrom | CHI_TECH/CHI_VECTOR/chi_vector.h:99-107 | the result is the first NULL slot of the range, and none means every slot in the range is occupied |
| ChiVectors.Grown | CHI_TECH/CHI_VECTOR/chi_vector.h:154-169 | on overflow the array is expansionFactor times larger, keeps the old slots and has NULL in the new ones; otherwise it is unchanged |
| ChiVectors.GrownHasRoom | CHI_TECH/CHI_VECTOR/chi_vector.h:151-172 | after one increment of stackCount, growing leaves room for the top slot |
| ChiVectors.AsWrittenGuardReachesPastBuffer | CHI_TECH/CHI_VECTOR/chi_vector.h:300 | the as-written guard admits exactly one index the intended guard rejects, index == stackCount, and on a full stack that slot is past the array |
| ChiVectors.CorrectedGuardInBounds | CHI_TECH/CHI_VECTOR/chi_vector.h:300 | the corrected guard admits only indices inside the slot array |
| ChiVectors.ChiVector.constructor | CHI_TECH/CHI_VECTOR/chi_vector.h:60-74 | capacity 100, expansion factor 2, both counts 0, every slot NULL |
| ChiVectors.ChiVector.AdjustCapacity | CHI_TECH/CHI_VECTOR/chi_vector.h:114-129 | the slot array becomes Grown of the old one, and the counts are unchanged |
| ChiVectors.ChiVector.AddItem | CHI_TECH/CHI_VECTOR/chi_vector.h:88-135 | NULL decrements itemCount and returns -1, keeping the slots, stackCount and expansion factor; otherwise the first NULL slot below stackCount is reused with the counts unchanged, or else the item is pushed on top of the grown array; the stack stays valid on every path |
| ChiVectors.ChiVector.PushItem | CHI_TECH/CHI_VECTOR/chi_vector.h:148-175 | both counts grow by one, and the item is stored at, and returns, the old stackCount |
| ChiVectors.ChiVector.SetItem | CHI_TECH/CHI_VECTOR/chi_vector.h:181-188 | indices the guard rejects change nothing; otherwise exactly that slot is overwritten |
| ChiVectors.ChiVector.GetItem | CHI_TECH/CHI_VECTOR/chi_vector.h:298-312 | NULL for indices the guard rejects, otherwise the slot's content |
| ChiVectors.ChiVector.GetItemChecked | CHI_TECH/CHI_VECTOR/chi_vector.h:298-312 | returns an item exactly for the occupied slots inside the stack |
| ChiVectors.ChiVector.PopItem | CHI_TECH/CHI_VECTOR/chi_vector.h:385-410 | an empty stack or a NULL top slot gives NULL and changes nothing; otherwise the top item is returned, its slot cleared and both counts decremented |
| ChiVectors.ChiVector.ClearItem | CHI_TECH/CHI_VECTOR/chi_vector.h:539-547 | indices above stackCount change nothing; otherwise exactly that slot becomes NULL |
| ChiVectors.ChiVector.EmptyVector | CHI_TECH/CHI_VECTOR/chi_vector.h:576-589 | the slots below the old itemCount become NULL, the other slots keep their content, and both counts become 0 |
| DirectedGraphs.NewVertex | framework/graphs/chi_directed_graph.cc:12-17 | a new vertex has the given id and no edges |
| DirectedGraphs.AddEdgeKeepsLinked | framework/graphs/chi_directed_graph.cc:106-116 | AddEdge records the edge on both endpoints, and a linked graph stays linked |
| DirectedGraphs.RemoveEdgeKeepsLinked | framework/graphs/chi_directed_graph.cc:121-125 | RemoveEdge erases the edge on both endpoints, and a linked graph stays linked |
| DirectedGraphs.AddRemoveEdgeRoundTrip | framework/graphs/chi_directed_graph.cc:106-125 | removing a newly added edge restores every edge set |
| DirectedGraphs.DetachedKeepsLinked | framework/graphs/chi_directed_graph.cc:34-61 | after RemoveVertex no valid vertex refers to the removed one, and the graph stays linked |
| DirectedGraphs.DfsDone | framework/graphs/chi_directed_graph.cc:131-143 | when the loop over the downstream neighbours ends, the DFS postcondition holds |
| DirectedGraphs.KahnDone | framework/graphs/chi_directed_graph.cc:236-291 | a repetition-free order in which each vertex follows its upstream neighbours has every edge pointing forward |
| DirectedGraphs.KahnInit | framework/graphs/chi_directed_graph.cc:246-252 | the copy with every vertex free of incoming edges stacked satisfies Kahn's invariant |
| DirectedGraphs.KahnPop | framework/graphs/chi_directed_graph.cc:264-268 | popping the top of the stack and outputting it keeps Kahn's invariant |
| DirectedGraphs.KahnErase | framework/graphs/chi_directed_graph.cc:271-278 | erasing an edge of the output vertex, and pushing a target left without incoming edges, keeps Kahn's invariant |
| DirectedGraphs.EraseEdge | framework/graphs/chi_directed_graph.cc:264-275 | the downstream edge is erased from the released vertex and its id, as the source does, from the upstream set of the target; the downstream total drops by one, and the edge sets stay mirrored when the id is the index |
| DirectedGraphs.EraseEdgeAtIndex | framework/graphs/chi_directed_graph.cc:264-275 | the corrected erase removes the released index from the target's upstream set, so mirrored edge sets stay mirrored whatever the ids |
| DirectedGraphs.EraseEdgeByIdKeepsUpstream | framework/graphs/chi_directed_graph.cc:264-275 | with ids 5 and 6 and the edge 0→1, erasing by id leaves 0 in the upstream set of vertex 1, while erasing by index empties it |
| DirectedGraphs.ReleaseDownstream | framework/graphs/chi_directed_graph.cc:268-279 | all downstream edges of the output vertex are erased (by id, as written) and the remaining sources are queued; Kahn's invariant, including mirrored edges, is kept when ids are indices |
| DirectedGraphs.SourceRemovalKeepsNoSinks | framework/graphs/chi_directed_graph.cc:334-344 | on a linked graph without sinks, removing a source creates no sink |
| DirectedGraphs.NonSinkRemovalLeavesValid | framework/graphs/chi_directed_graph.cc:334-356 | removing a non-sink from a linked graph without self-loops leaves one of its targets valid |
| DirectedGraphs.EdgesRemovedStep | framework/graphs/chi_directed_graph.cc:544-550 | removing one more edge extends the list of removed edges by exactly that edge |
| DirectedGraphs.TgInducedAdd | framework/graphs/chi_directed_graph.cc:493-507 | each edge added to the temporary graph is an edge of the component |
| DirectedGraphs.DirectedGraph.AddVertexWithId | framework/graphs/chi_directed_graph.cc:12-17 | appends a valid vertex with the given id and no edges |
| DirectedGraphs.DirectedGraph.AddVertex | framework/graphs/chi_directed_graph.cc:24-29 | the new vertex's id is the previous vertex count |
| DirectedGraphs.DirectedGraph.RemoveVertex | framework/graphs/chi_directed_graph.cc:34-61 | a vertex not below the count is a logic error and changes nothing; otherwise the vertex is erased from every neighbour's edge sets and flagged invalid |
| DirectedGraphs.DirectedGraph.AddEdge | framework/graphs/chi_directed_graph.cc:106-116 | the edge and its weight are recorded on both endpoints, and the result is true |
| DirectedGraphs.DirectedGraph.RemoveEdge | framework/graphs/chi_directed_graph.cc:121-125 | the edge is erased from both endpoints |
| DirectedGraphs.DirectedGraph.DFSAlgorithm | framework/graphs/chi_directed_graph.cc:131-143 | the appended part lists cur and then previously unvisited vertices, each once; exactly those become visited; and each has all its downstream neighbours visited |
| DirectedGraphs.DirectedGraph.PopComponent | framework/graphs/chi_directed_graph.cc:173-188 | pops the stack down to and including u and returns the popped vertices in pop order with u last; exactly the popped vertices lose their on-stack flag |
| DirectedGraphs.DirectedGraph.SCCAlgorithm | framework/graphs/chi_directed_graph.cc:149-191 | keeps the Tarjan state (recorded components disjoint, strongly connected, maximal, and covering every finished vertex on a cycle) and does what VisitSpec says: u becomes discovered, earlier discovery and low values are kept, the stack below u is kept, and u is either popped with its component or left above a vertex it reaches |
| DirectedGraphs.DirectedGraph.ExploreEdges | framework/graphs/chi_directed_graph.cc:162-171 | after the loop over the downstream neighbours of u every edge out of u is explored and the Tarjan state is kept |
| DirectedGraphs.DirectedGraph.ExploreEdge | framework/graphs/chi_directed_graph.cc:164-170 | one neighbour: an undiscovered v is visited and low[u] takes the minimum with low[v]; a v on the stack lowers low[u] to at most disc[v]; any other v changes nothing |
| DirectedGraphs.DirectedGraph.FindStronglyConnectedComponents | framework/graphs/chi_directed_graph.cc:202-223 | every reported component has more than one vertex, no vertex is in two components, the vertices of a component are pairwise mutually reachable, a vertex mutually reachable with a member is a member, and a vertex is in some component exactly when it lies on a cycle through another vertex |
| DirectedGraphs.ReachesTrans | framework/graphs/chi_directed_graph.cc:162-171 | reachability along downstream edges is transitive |
| DirectedGraphs.SettledReach | framework/graphs/chi_directed_graph.cc:162-171 | a vertex reachable from a discovered vertex that left the stack has left it too |
| DirectedGraphs.ReachesRoot | framework/graphs/chi_directed_graph.cc:174-188 | at a root (low[u] == disc[u]) every vertex above u on the stack reaches u |
| DirectedGraphs.PopTakesCycle | framework/graphs/chi_directed_graph.cc:174-188 | a vertex mutually reachable with a popped vertex is popped with it |
| DirectedGraphs.PopKeepsState | framework/graphs/chi_directed_graph.cc:174-188 | popping at a root keeps the Tarjan state, the popped list recorded when it has more than one vertex |
| DirectedGraphs.ComponentMembersOnCycle | framework/graphs/chi_directed_graph.cc:186 | every member of a recorded component lies on a cycle through another vertex |
| DirectedGraphs.DiscoverKeepsState | framework/graphs/chi_directed_graph.cc:158-160 | discovering u (time advanced, pushed, flagged) keeps the Tarjan state |
| DirectedGraphs.AfterChild | framework/graphs/chi_directed_graph.cc:164-168 | after the call for an undiscovered neighbour v and low[u] := min(low[u], low[v]), every vertex above u still has a low value witnessed by a reachable vertex on the stack |
| DirectedGraphs.AfterOnStack | framework/graphs/chi_directed_graph.cc:169-170 | after low[u] := min(low[u], disc[v]) for a neighbour v on the stack, the same witnessing holds and the edge to v counts as explored |
| DirectedGraphs.ChildStep | framework/graphs/chi_directed_graph.cc:164-168 | the tree-edge case as a loop step: the Tarjan state and the stack above u are kept, and the count of undiscovered vertices does not grow |
| DirectedGraphs.OnStackStep | framework/graphs/chi_directed_graph.cc:169-170 | the back-edge case as a loop step |
| DirectedGraphs.SettledStep | framework/graphs/chi_directed_graph.cc:162-171 | an edge to a vertex that left the stack changes nothing and counts as explored |
| DirectedGraphs.ExploringStep | framework/graphs/chi_directed_graph.cc:162-171 | handling one more neighbour keeps the loop invariant of SCCAlgorithm |
| DirectedGraphs.RootStep | framework/graphs/chi_directed_graph.cc:174-188 | popping at the root after every edge is explored keeps the Tarjan state and returns the stack to what it was before the call |
| DirectedGraphs.NonRootStep | framework/graphs/chi_directed_graph.cc:174 | a vertex whose low value is below its discovery time stays on the stack above a vertex it reaches |
| DirectedGraphs.ScanStep | framework/graphs/chi_directed_graph.cc:217-219 | a top-level call from an undiscovered vertex ends with an empty stack and that vertex discovered |
| DirectedGraphs.ScanEnd | framework/graphs/chi_directed_graph.cc:217-222 | once every vertex is discovered with the stack empty, the components are disjoint, strongly connected and maximal, and their members are exactly the vertices on a cycle through another vertex |
| DirectedGraphs.DirectedGraph.GenerateTopologicalSort | framework/graphs/chi_directed_graph.cc:236-291 | the result is empty or lists as many ids as there are vertices, the ids of the visit order; on a linked graph of valid vertices whose ids are their indices, a non-empty result lists each vertex once with every edge pointing forward |
| DirectedGraphs.DirectedGraph.FirstSink | framework/graphs/chi_directed_graph.cc:322-332 | the first valid vertex without downstream edges, and none only when there is no sink |
| DirectedGraphs.DirectedGraph.FirstSource | framework/graphs/chi_directed_graph.cc:334-344 | the first valid vertex without upstream edges, and none only when there is no source |
| DirectedGraphs.DirectedGraph.VertexDelta | framework/graphs/chi_directed_graph.cc:303-313 | the delta is the outgoing weight minus the incoming weight |
| DirectedGraphs.DirectedGraph.MaxDeltaAsWritten | framework/graphs/chi_directed_graph.cc:346-353 | -1 exactly when no valid vertex has a delta above -100; otherwise the first valid vertex of largest delta |
| DirectedGraphs.DirectedGraph.MaxDelta | framework/graphs/chi_directed_graph.cc:346-353 | the first valid vertex of largest delta, and none only when no vertex is valid |
| DirectedGraphs.DirectedGraph.FindApproxMinimumFAS | framework/graphs/chi_directed_graph.cc:300-366 | every vertex is removed, and the result lists each vertex that was valid exactly once |
| DirectedGraphs.DirectedGraph.RemoveForFas | framework/graphs/chi_directed_graph.cc:322-344 | one removal detaches the vertex, lowers the valid count by one, and appends the vertex to s1 or s2 |
| DirectedGraphs.DirectedGraph.FindApproxMinimumFASAsWritten | framework/graphs/chi_directed_graph.cc:300-366 | assuming GetNumSinks counts a vertex with no edges as a sink (and GetNumSources as a source), on any non-empty linked graph without self-loops the call ends in a logic error from RemoveVertex(-1) |
| DirectedGraphs.DirectedGraph.HasStrictSink | framework/graphs/chi_directed_graph.cc:322 | true exactly when some valid vertex has no downstream edge but an upstream one (GetNumSinks() > 0 under the strict reading) |
| DirectedGraphs.DirectedGraph.HasStrictSource | framework/graphs/chi_directed_graph.cc:334 | true exactly when some valid vertex has no upstream edge but a downstream one |
| DirectedGraphs.StrictSinkRemovalLeavesValid | framework/graphs/chi_directed_graph.cc:322-331 | while a strict sink exists, removing any vertex without downstream edges leaves a valid vertex |
| DirectedGraphs.StrictSourceRemovalLeavesValid | framework/graphs/chi_directed_graph.cc:334-343 | while a strict source exists, removing any vertex without upstream edges leaves a valid vertex |
| DirectedGraphs.DirectedGraph.FasPhasesStrictCount | framework/graphs/chi_directed_graph.cc:318-344 | under the strict reading of the sink and source counts, the sink and source phases of a round keep at least one vertex valid and end with no strict source, so the max-delta step never runs on an empty graph |
| DirectedGraphs.DirectedGraph.RemoveCyclicDependencies | framework/graphs/chi_directed_graph.cc:435-565 | a logic error exactly when breaking a component fails, which the as-written FindApproxMinimumFAS does on every component of four or more vertices without self-loops when the header counts a vertex with no edges as a sink; on success the graph afterwards is the graph before with exactly the returned edges erased, and no vertex is left on a cycle through another vertex unless the loop stopped on a round that removed nothing (the ghost stalled), which happens only while such a vertex remains; the validity flags are kept on both paths |
| DirectedGraphs.DirectedGraph.BreakComponent | framework/graphs/chi_directed_graph.cc:459-548 | a component of two or three vertices loses the edges the source lists, each one recorded; a larger component calls the as-written FindApproxMinimumFAS, which, assuming GetNumSinks counts a vertex with no edges as a sink, fails with a logic error on every component without self-loops and leaves the graph unchanged |
| DirectedGraphs.DirectedGraph.FirstTargetIn | framework/graphs/chi_directed_graph.cc:468-481 | the smallest downstream neighbour of u in the list, and none only when no neighbour is in the list |
| DirectedGraphs.DirectedGraph.FasBackEdges | framework/graphs/chi_directed_graph.cc:488-542 | the ordering comes from the as-written FindApproxMinimumFAS, so, assuming GetNumSinks counts a vertex with no edges as a sink, a component without self-loops gives a logic error; on success s lists each local vertex once, and the pairs are exactly the component's edges that point backwards in s |
| DirectedGraphs.DirectedGraph.ComponentGraph | framework/graphs/chi_directed_graph.cc:488-507 | the temporary graph has one valid vertex per component entry, its edges are edges of the component, and every edge of the component between two of its vertices is an edge of the temporary graph |
| DirectedGraphs.DirectedGraph.AddInducedEdges | framework/graphs/chi_directed_graph.cc:495-508 | after the edges of component vertex mu are added, every edge of the first mu + 1 component vertices that stays inside the component is in the temporary graph, and only such edges are |
| DirectedGraphs.DirectedGraph.AddInducedEdge | framework/graphs/chi_directed_graph.cc:497-504 | one downstream vertex v of component vertex mu is added at its position in the component when it is there, and the graph stays linked |
| DirectedGraphs.CoversAdd | framework/graphs/chi_directed_graph.cc:497-504 | adding the edge for v keeps the earlier rows covered and covers v in the current row |
| DirectedGraphs.CoversNext | framework/graphs/chi_directed_graph.cc:495-508 | once every downstream vertex of mu is covered, the first mu + 1 rows are covered |
| DirectedGraphs.TgInducedNoSelfLoops | framework/graphs/chi_directed_graph.cc:495-508 | a temporary graph built from a component without self-loops has none |
| DirectedGraphs.DirectedGraph.SequenceMap | framework/graphs/chi_directed_graph.cc:526-529 | smap gives the position of each vertex in s |
| DirectedGraphs.DirectedGraph.BackEdges | framework/graphs/chi_directed_graph.cc:532-542 | exactly the edges of the temporary graph that point backwards in s are listed |
| DirectedGraphs.DirectedGraph.VertexBackEdges | framework/graphs/chi_directed_graph.cc:535-541 | the pairs found for one vertex are exactly its downstream edges that point backwards in s |
| OrthoMesh.AdjacentIncreasingIsSorted | framework/mesh/MeshGenerator/OrthogonalMeshGenerator.cc:74-85 | a set where each value exceeds its predecessor is strictly increasing throughout |
| OrthoMesh.IsMonotonic | framework/mesh/MeshGenerator/OrthogonalMeshGenerator.cc:74-85 | the scan reports monotonic exactly when each value exceeds its predecessor |
| OrthoMesh.NewOrthogonalMeshGenerator | framework/mesh/MeshGenerator/OrthogonalMeshGenerator.cc:46-96 | the node sets are accepted exactly when there are one to three of them, each with at least two strictly increasing nodes; every rejection is an invalid argument |
| OrthoMesh.CreateUnpartitioned1DOrthoMesh | framework/mesh/MeshGenerator/OrthogonalMeshGenerator.cc:121-187 | attributes DIMENSION_1 and ORTHOGONAL, Nz-1 cells, boundary map {4: ZMAX, 5: ZMIN}, vertex k at (0, 0, z[k]), and cell c the slab over vertices c and c+1 |
| OrthoMesh.SlabBoundary | framework/mesh/MeshGenerator/OrthogonalMeshGenerator.cc:166-174 | a slab face lacks a neighbour exactly at the two ends of the line, where it carries ZMIN (5) or ZMAX (4); interior faces name cells c-1 and c+1 |
| OrthoMesh.SlabMeshConsistent | framework/mesh/MeshGenerator/OrthogonalMeshGenerator.cc:148-181 | the 1D mesh's neighbour links are mutual, and every boundary face carries a named boundary id |
| OrthoMesh.QuadVertexIds | framework/mesh/MeshGenerator/OrthogonalMeshGenerator.cc:254-255 | each quadrilateral lists four vertex ids |
| OrthoMesh.GridVertices2D | framework/mesh/MeshGenerator/OrthogonalMeshGenerator.cc:211-225 | there are Nx*Ny vertices, and vertex i*Nx+j sits at (x[j], y[i], 0) |
| OrthoMesh.QuadRow | framework/mesh/MeshGenerator/OrthogonalMeshGenerator.cc:242-286 | one row of the cell scan appends Nx-1 cells, each the quadrilateral its row-major id decodes to |
| OrthoMesh.CreateUnpartitioned2DOrthoMesh | framework/mesh/MeshGenerator/OrthogonalMeshGenerator.cc:190-293 | attributes DIMENSION_2 and ORTHOGONAL, the ortho counts, boundary map {0: XMAX, 1: XMIN, 2: YMAX, 3: YMIN}, the grid vertices, and (Ny-1)*(Nx-1) cells, each the as-written quadrilateral at its row-major position |
| OrthoMesh.Face2DEdges | framework/mesh/MeshGenerator/OrthogonalMeshGenerator.cc:268-279 | a face on the domain edge carries its side's boundary id with has_neighbor false; no other face is ever given a has_neighbor value other than the default |
| OrthoMesh.Face2DNeighbourAcross | framework/mesh/MeshGenerator/OrthogonalMeshGenerator.cc:270-273 | in the corrected generator an interior face names the cell across it, which lies in the grid and whose opposite face names this cell over the same two vertices |
| OrthoMesh.Face2DAsWrittenMissesLeftNeighbour | framework/mesh/MeshGenerator/OrthogonalMeshGenerator.cc:271 | on a 3-by-3 node grid the interior left face of cell (0, 1) keeps the placeholder 1 instead of cell 0 across it |
| OrthoMesh.Face2DAsWrittenMissesRightNeighbour | framework/mesh/MeshGenerator/OrthogonalMeshGenerator.cc:270 | on a 3-by-3 node grid the interior right face of cell (1, 0) keeps 1 instead of cell 3 across it |
| OrthoMesh.HexVertexIds | framework/mesh/MeshGenerator/OrthogonalMeshGenerator.cc:376-384 | each hexahedron lists eight vertex ids |
| OrthoMesh.HexBoundary | framework/mesh/MeshGenerator/OrthogonalMeshGenerator.cc:386-457 | a hexahedron has 6 faces and 8 vertices; a face lacks a neighbour exactly on the domain boundary, where its boundary id is its position among the faces (XMAX 0 to ZMIN 5) |
| OrthoMesh.HexNeighbourAcross | framework/mesh/MeshGenerator/OrthogonalMeshGenerator.cc:386-457 | each interior face names the hexahedron across it, which lies in the grid and whose opposite face names this cell over the same four vertices |
| OrthoMesh.GridVertices3D | framework/mesh/MeshGenerator/OrthogonalMeshGenerator.cc:326-347 | there are Nx*Ny*Nz vertices, and vertex (i*Nx+j)*Nz+k sits at (x[j], y[i], z[k]) |
| OrthoMesh.HexColumn | framework/mesh/MeshGenerator/OrthogonalMeshGenerator.cc:371-460 | one (i, j) column of the cell scan appends Nz-1 cells, each the hexahedron its row-major id decodes to |
| OrthoMesh.CreateUnpartitioned3DOrthoMesh | framework/mesh/MeshGenerator/OrthogonalMeshGenerator.cc:296-468 | attributes DIMENSION_3 and ORTHOGONAL, the ortho counts, the six-entry boundary map, the grid vertices, and (Ny-1)*(Nx-1)*(Nz-1) hexahedra at their row-major positions |
| OrthoMesh.HexAt | framework/mesh/MeshGenerator/OrthogonalMeshGenerator.cc:349-359 | the cell with id c is the hexahedron at the grid position c decodes to |
| OrthoMesh.HexFaceReciprocal | framework/mesh/MeshGenerator/OrthogonalMeshGenerator.cc:386-457 | a face of the 3D mesh that claims a neighbour names a cell of the mesh that has a face pointing back |
| OrthoMesh.HexMeshConsistent | framework/mesh/MeshGenerator/OrthogonalMeshGenerator.cc:361-462 | the 3D mesh's neighbour links are mutual, and every boundary face carries a named boundary id |
| OrthoMesh.GenerateUnpartitionedMesh | framework/mesh/MeshGenerator/OrthogonalMeshGenerator.cc:98-118 | an input mesh is an invalid argument; otherwise one, two or three node sets give the 1D, 2D or 3D mesh, and any other count a logic error |
| MeshContinuum.SortSizes | framework/mesh/MeshContinuum/chi_meshcontinuum_utilities.cc:43 | the sorted sizes are ascending and a permutation of the collected sizes |
| MeshContinuum.InsertSortedSorted | framework/mesh/MeshContinuum/chi_meshcontinuum_utilities.cc:43 | inserting into a sorted list keeps it sorted |
| MeshContinuum.InsertSortedPermutes | framework/mesh/MeshContinuum/chi_meshcontinuum_utilities.cc:43 | insertion adds exactly the new element: the result is a permutation of the list plus the element |
| MeshContinuum.SortedLastIsMax | framework/mesh/MeshContinuum/chi_meshcontinuum_utilities.cc:52 | the back of the sorted list is the largest face size |
| MeshContinuum.CollectFaceSizes | framework/mesh/MeshContinuum/chi_meshcontinuum_utilities.cc:38-41 | the histogram lists the vertex count of every face of every local cell, cell by cell |
| MeshContinuum.SumSizes | framework/mesh/MeshContinuum/chi_meshcontinuum_utilities.cc:46-48 | the total is the sum of the face sizes |
| MeshContinuum.BinSortedSizes | framework/mesh/MeshContinuum/chi_meshcontinuum_utilities.cc:78-100 | the sorted sizes are cut into consecutive runs: a run closes at face f exactly when sorted[f] over the average of the run so far (sorted[0] for the very first face) exceeds the slave tolerance, and never inside a run; each closed run gives (the size just before the cut, the run length), lastBinNumFaces is the length of the open run, and every face is counted once |
| MeshContinuum.ScanToCuts | framework/mesh/MeshContinuum/chi_meshcontinuum_utilities.cc:78-100 | after f faces the scan has closed a run at every face where the tolerance test fired and at no other, and its running total, count and average are those of the open run |
| MeshContinuum.ScanStepCloses | framework/mesh/MeshContinuum/chi_meshcontinuum_utilities.cc:86-99 | when size g over the running average exceeds the slave tolerance, the category (previous size, running count) is emitted and the open run restarts at g |
| MeshContinuum.ScanStepJoins | framework/mesh/MeshContinuum/chi_meshcontinuum_utilities.cc:86-99 | otherwise size g joins the open run, whose total, count and average then include it |
| MeshContinuum.ScanToBins | framework/mesh/MeshContinuum/chi_meshcontinuum_utilities.cc:78-100 | after f faces the closed categories and the open run count every face once, carry sizes that occur, and ascend |
| MeshContinuum.HistogramOfBins | framework/mesh/MeshContinuum/chi_meshcontinuum_utilities.cc:68-102 | when the largest size over the average exceeds the master tolerance, the slave-tolerance runs followed by (largest, length of the last run) form the histogram |
| MeshContinuum.CategoriseSorted | framework/mesh/MeshContinuum/chi_meshcontinuum_utilities.cc:68-102 | when the largest size over the average exceeds the master tolerance, the categories are the slave-tolerance runs of the sorted sizes followed by (largest, length of the last run); otherwise the single category (largest, number of faces); the counts add up to the number of faces and the sizes occur and ascend |
| MeshContinuum.MakeGridFaceHistogram | framework/mesh/MeshContinuum/chi_meshcontinuum_utilities.cc:32-119 | the categories are the histogram of the stably sorted face sizes of all local cells under both tolerances: the counts add up to the number of faces, the sizes occur and ascend, the last category holds the largest face, and below the master tolerance there is only that one |
| MeshContinuum.SumPermutation | framework/mesh/MeshContinuum/chi_meshcontinuum_utilities.cc:43-48 | the total face size does not depend on the order the sort leaves |
| MeshContinuum.IsCellLocal | framework/mesh/MeshContinuum/chi_meshcontinuum_utilities.cc:124-131 | the lookup in the global-to-local map; IsCellLocalFindsCell gives what it means for the local cells |
| MeshContinuum.IsCellLocalFindsCell | framework/mesh/MeshContinuum/chi_meshcontinuum_utilities.cc:124-131 | when the map indexes the local cells, a cell is local exactly when some local cell carries the global id, and the map then gives that cell's local index |
| MeshContinuum.GetCellDimension | framework/mesh/MeshContinuum/chi_meshcontinuum_utilities.cc:136-160 | points and ghosts give 0, slabs 1, triangles, quadrilaterals and polygons 2, the polyhedral types 3, each in both directions; any other type is a logic error |
| MeshContinuum.GeneratedCellDimensions | framework/mesh/MeshContinuum/chi_meshcontinuum_utilities.cc:136-160 | the slabs, quadrilaterals and hexahedra the orthogonal generator builds have dimension 1, 2 and 3 |
| MeshContinuum.GetIJKInfo | framework/mesh/MeshContinuum/chi_meshcontinuum_utilities.cc:443-450 | the orthogonal extents, only on a mesh with the ORTHOGONAL attribute; otherwise a logic error |
| MeshContinuum.FindAssociatedCellVertices | framework/mesh/MeshContinuum/chi_meshcontinuum_utilities.cc:209-247 | a face without a neighbour is a logic error; a vertex the neighbour lacks ends the program; otherwise entry q is the first position of face vertex q among the neighbour's vertices |
| MeshContinuum.FirstPositionsCover | framework/mesh/MeshContinuum/chi_meshcontinuum_utilities.cc:222-246 | a completed mapping means every face vertex is a vertex of the neighbouring cell |
| MeshContinuum.VertexIdSet | framework/mesh/MeshContinuum/chi_meshcontinuum_utilities.cc:259-261 | the set holds exactly the face's vertex ids |
| MeshContinuum.MapCellFace | framework/mesh/MeshContinuum/chi_meshcontinuum_utilities.cc:254-286 | the result is the first face of the adjacent cell with the same vertex-id set as face f; a logic error exactly when no face matches |
| MeshContinuum.ReciprocalFacesMap | framework/mesh/MeshContinuum/chi_meshcontinuum_utilities.cc:254-286 | on a mesh with mutual neighbour links, a face with a neighbour always has a matching face on it, so MapCellFace cannot fail |
| MeshContinuum.FirstIdNamed | framework/mesh/MeshContinuum/chi_meshcontinuum_utilities.cc:515-516 | the smallest id carrying the name, and none only when no id carries it |
| MeshContinuum.MaxId | framework/mesh/MeshContinuum/chi_meshcontinuum_utilities.cc:518-520 | the largest id, bounding every key and belonging to a non-empty set |
| MeshContinuum.MakeBoundaryID | framework/mesh/MeshContinuum/chi_meshcontinuum_utilities.cc:510-523 | 0 for an empty map; the smallest existing id of a known name; otherwise a new id one above every existing id |
| MeshContinuum.MakeBoundaryIDStable | framework/mesh/MeshContinuum/chi_meshcontinuum_utilities.cc:510-523 | registering the returned id under the name and asking again returns the same id, and no other entry changes |
| SurfaceMesh.ClosedEdges | CHI_TECH/ChiMesh/SurfaceMesh/chi_surfacemesh_loadexport.cc:273-288 | one edge per vertex, starting at that vertex and with no neighbour yet |
| SurfaceMesh.ClosedEdgesLoop | CHI_TECH/ChiMesh/SurfaceMesh/chi_surfacemesh_loadexport.cc:273-288 | each edge ends where the next one starts and the last edge ends at the first vertex |
| SurfaceMesh.TriangleEdgesListed | CHI_TECH/ChiMesh/SurfaceMesh/chi_surfacemesh_loadexport.cc:214-222 | a triangle's edges are (v0,v1), (v1,v2), (v2,v0) |
| SurfaceMesh.TriangleFace | CHI_TECH/ChiMesh/SurfaceMesh/chi_surfacemesh_loadexport.cc:168-224 | three vertex, normal and texture slots, each the 1-based number on the line minus one, and three edges |
| SurfaceMesh.ZeroBased | CHI_TECH/ChiMesh/SurfaceMesh/chi_surfacemesh_loadexport.cc:246-247 | entry k is the vertex number of word k minus one |
| SurfaceMesh.ReadPolygonFace | CHI_TECH/ChiMesh/SurfaceMesh/chi_surfacemesh_loadexport.cc:228-288 | the polygon read from an "f" line is the vertices of its first number_of_verts words, made 0-based and closed into a loop of edges |
| SurfaceMesh.PlainFaceLineGivesEmptyPolygon | CHI_TECH/ChiMesh/SurfaceMesh/chi_surfacemesh_loadexport.cc:165-166 | an "f" line without '/' counts zero vertices and adds a polygon without vertices, not a triangle |
| SurfaceMesh.ParseStepWellFormed | CHI_TECH/ChiMesh/SurfaceMesh/chi_surfacemesh_loadexport.cc:163-224 | every record keeps every triangle at three vertex, normal and texture slots and three edges |
| SurfaceMesh.ParseStopsAtFailure | CHI_TECH/ChiMesh/SurfaceMesh/chi_surfacemesh_loadexport.cc:324-325 | once a line element names an unread vertex (vertices.at throws), later records change nothing |
| SurfaceMesh.BlankLineFailsImport | CHI_TECH/ChiMesh/SurfaceMesh/chi_surfacemesh_loadexport.cc:36-39 | a blank or all-space line anywhere in the file makes the import fail, since its first word is taken at npos |
| SurfaceMesh.ParseAppend | CHI_TECH/ChiMesh/SurfaceMesh/chi_surfacemesh_loadexport.cc:36-332 | the import of two runs of records is the import of the first followed by the import of the second |
| SurfaceMesh.ParseEdgeLine | CHI_TECH/ChiMesh/SurfaceMesh/chi_surfacemesh_loadexport.cc:299-327 | an "l" line whose vertices exist appends the line element with both indices made 0-based |
| SurfaceMesh.ScanFacesIsLastMatch | CHI_TECH/ChiMesh/SurfaceMesh/chi_surfacemesh_loadexport.cc:575-595 | the connectivity scan returns the last reverse-running edge in face and edge order, or its starting link when none runs back |
| SurfaceMesh.LinkedEdgeMeaning | CHI_TECH/ChiMesh/SurfaceMesh/chi_surfacemesh_loadexport.cc:556-623 | a linked edge keeps its end points and either names the last edge that runs the other way or, when none does, keeps its starting link (-1 for triangles, the old link for polygons) |
| SurfaceMesh.LinkKeepsEnds | CHI_TECH/ChiMesh/SurfaceMesh/chi_surfacemesh_loadexport.cc:556-623 | linking changes the neighbour fields only, never the end points of any edge |
| SurfaceMesh.TriangleNotSelfLinked | CHI_TECH/ChiMesh/SurfaceMesh/chi_surfacemesh_loadexport.cc:578-590 | although the triangle scan includes the face itself, a triangle with three distinct vertices never links to itself |
| SurfaceMesh.LinkReciprocal | CHI_TECH/ChiMesh/SurfaceMesh/chi_surfacemesh_loadexport.cc:585-590 | when a directed edge occurs once, the edge it links to links straight back to it, for triangles and for polygons that start unlinked |
| SurfaceMesh.LinkFaceEdges | CHI_TECH/ChiMesh/SurfaceMesh/chi_surfacemesh_loadexport.cc:575-621 | the loops over the other faces and their edges produce exactly the linked edges of the face |
| SurfaceMesh.LinkAllTriangles | CHI_TECH/ChiMesh/SurfaceMesh/chi_surfacemesh_loadexport.cc:558-596 | the triangle pass resets every link to -1 and links every triangle edge, keeping triangles well formed |
| SurfaceMesh.LinkAllPolygons | CHI_TECH/ChiMesh/SurfaceMesh/chi_surfacemesh_loadexport.cc:598-622 | the polygon pass links every polygon edge against every other polygon, never the polygon itself |
| SurfaceMesh.ExportWordsSlashes | CHI_TECH/ChiMesh/SurfaceMesh/chi_surfacemesh_loadexport.cc:675-693 | every exported face word carries two '/', so the reader counts exactly as many vertices as were written |
| SurfaceMesh.ExportedTriangleReadBack | CHI_TECH/ChiMesh/SurfaceMesh/chi_surfacemesh_loadexport.cc:675-677 | an exported triangle ("%d//1", index plus one) is read back with the same vertex indices and normal 0 |
| SurfaceMesh.ExportedPolygonReadBack | CHI_TECH/ChiMesh/SurfaceMesh/chi_surfacemesh_loadexport.cc:691-694 | an exported polygon is read back with the same vertex indices |
| SurfaceMesh.ObjRoundTrip | CHI_TECH/ChiMesh/SurfaceMesh/chi_surfacemesh_loadexport.cc:630-702 | importing an exported mesh gives as many vertices, the same line elements, and the same vertex indices on every triangle and polygon, given in-range lines and no three-vertex polygon |
| SurfaceMesh.SurfaceMesh.ImportFromOBJFile | CHI_TECH/ChiMesh/SurfaceMesh/chi_surfacemesh_loadexport.cc:13-395 | reads every record in turn; a blank or all-space line (substr at npos), a line element naming an unread vertex, or a triangle index that vertices.at or normals.at rejects, is an out_of_range error; otherwise the mesh is the records' content with connectivity updated |
| SurfaceMesh.SurfaceMesh.ReadRecord | CHI_TECH/ChiMesh/SurfaceMesh/chi_surfacemesh_loadexport.cc:42-330 | one record appends its vertex, normal, face or line element; a blank line, or a line element naming an unread vertex, fails leaving the mesh unchanged |
| SurfaceMesh.SurfaceMesh.TriangleIndicesChecked | CHI_TECH/ChiMesh/SurfaceMesh/chi_surfacemesh_loadexport.cc:337-362 | true exactly when every triangle's vertex and normal indices name existing entries |
| SurfaceMesh.SurfaceMesh.UpdateInternalConnectivity | CHI_TECH/ChiMesh/SurfaceMesh/chi_surfacemesh_loadexport.cc:556-623 | the triangles and polygons are replaced by their linked versions and nothing else changes |
| SurfaceMesh.SurfaceMesh.ExportToOBJFile | CHI_TECH/ChiMesh/SurfaceMesh/chi_surfacemesh_loadexport.cc:630-702 | the records written are the comment, the object name, the vertices, the line elements, then the triangle and polygon blocks |
| XSBlocks.Read1D | framework/ChiPhysics/PhysicsMaterial/MultiGroupXS/single_state_mgxs_01_readfromchi.cc:85-122 | a successful read has exactly N entries |
| XSBlocks.ReadVectorData | framework/ChiPhysics/PhysicsMaterial/MultiGroupXS/single_state_mgxs_01_readfromchi.cc:85-122 | the line loop of Read1DData gives the vector, or the first error, of the block's reading |
| XSBlocks.Read1DStops | framework/ChiPhysics/PhysicsMaterial/MultiGroupXS/single_state_mgxs_01_readfromchi.cc:106-121 | once a prefix of the block fails, the whole block fails the same way |
| XSBlocks.Read1DSucceeds | framework/ChiPhysics/PhysicsMaterial/MultiGroupXS/single_state_mgxs_01_readfromchi.cc:106-115 | a vector block reads without error exactly when it has at most N lines, each naming an index below N |
| XSBlocks.Read1DTooMany | framework/ChiPhysics/PhysicsMaterial/MultiGroupXS/single_state_mgxs_01_readfromchi.cc:110-115 | the line after the N-th is stored first and then raises runtime_error |
| XSBlocks.Read1DBadIndex | framework/ChiPhysics/PhysicsMaterial/MultiGroupXS/single_state_mgxs_01_readfromchi.cc:110 | the first index outside [0, N) raises out_of_range (destination.at) |
| XSBlocks.Read1DValues | framework/ChiPhysics/PhysicsMaterial/MultiGroupXS/single_state_mgxs_01_readfromchi.cc:94-110 | each entry holds the value of the last line naming it, and zero when no line names it |
| XSBlocks.ReadBounds | framework/ChiPhysics/PhysicsMaterial/MultiGroupXS/single_state_mgxs_01_readfromchi.cc:42-81 | a successful read has exactly G rows, each a [high, low] pair |
| XSBlocks.ReadGroupStructure | framework/ChiPhysics/PhysicsMaterial/MultiGroupXS/single_state_mgxs_01_readfromchi.cc:42-81 | the line loop gives G pairs (high, low) or the first error, as the group-structure reading defines |
| XSBlocks.ReadBoundsSucceeds | framework/ChiPhysics/PhysicsMaterial/MultiGroupXS/single_state_mgxs_01_readfromchi.cc:64-74 | the group structure reads without error exactly when it has at most G lines, each naming a group below G |
| XSBlocks.ReadBoundsStops | framework/ChiPhysics/PhysicsMaterial/MultiGroupXS/single_state_mgxs_01_readfromchi.cc:64-80 | once a prefix of the block fails, the whole block fails the same way |
| XSBlocks.Read2D | framework/ChiPhysics/PhysicsMaterial/MultiGroupXS/single_state_mgxs_01_readfromchi.cc:126-170 | a successful read has the requested number of rows, each of the requested width |
| XSBlocks.ReadMatrixData | framework/ChiPhysics/PhysicsMaterial/MultiGroupXS/single_state_mgxs_01_readfromchi.cc:126-170 | the line loop of Read2DData gives an n_rows x n_cols matrix or the first error |
| XSBlocks.Read2DSucceeds | framework/ChiPhysics/PhysicsMaterial/MultiGroupXS/single_state_mgxs_01_readfromchi.cc:151-163 | a matrix block reads without error exactly when every keyword line names a position inside the matrix, G_PRECURSOR_VAL lines with row and column swapped |
| XSBlocks.Read2DOnlyTagged | framework/ChiPhysics/PhysicsMaterial/MultiGroupXS/single_state_mgxs_01_readfromchi.cc:154-163 | lines whose first word is not the entry keyword have no effect |
| XSBlocks.Read2DStops | framework/ChiPhysics/PhysicsMaterial/MultiGroupXS/single_state_mgxs_01_readfromchi.cc:151-169 | once a prefix of the block fails, the whole block fails the same way |
| XSBlocks.Insert | framework/ChiPhysics/PhysicsMaterial/MultiGroupXS/single_state_mgxs_01_readfromchi.cc:208 | the sparse matrix keeps its dimensions, holds the new value at (group, gprime) and every other entry unchanged |
| XSBlocks.ReadTransfer | framework/ChiPhysics/PhysicsMaterial/MultiGroupXS/single_state_mgxs_01_readfromchi.cc:175-216 | a successful read has M matrices, each G by G |
| XSBlocks.ReadTransferMatrices | framework/ChiPhysics/PhysicsMaterial/MultiGroupXS/single_state_mgxs_01_readfromchi.cc:175-216 | the line loop gives M sparse G x G matrices or the first error |
| XSBlocks.ReadTransferSucceeds | framework/ChiPhysics/PhysicsMaterial/MultiGroupXS/single_state_mgxs_01_readfromchi.cc:200-209 | the transfer block reads without error exactly when every M_GPRIME_G_VAL line names a moment below M |
| XSBlocks.ReadTransferStops | framework/ChiPhysics/PhysicsMaterial/MultiGroupXS/single_state_mgxs_01_readfromchi.cc:200-215 | once a prefix of the block fails, the whole block fails the same way |
| XSBlocks.ReadTransferStoresLast | framework/ChiPhysics/PhysicsMaterial/MultiGroupXS/single_state_mgxs_01_readfromchi.cc:204-208 | the last M_GPRIME_G_VAL line's value is found at (group, gprime) of its moment's matrix |
| XSBlocks.NormalisedIsDistribution | framework/ChiPhysics/PhysicsMaterial/MultiGroupXS/single_state_mgxs_01_readfromchi.cc:533-535 | a checked spectrum divided by its sum sums to one, lies in [0, 1] entrywise, and keeps the proportions of the original |
| XSBlocks.Normalise | framework/ChiPhysics/PhysicsMaterial/MultiGroupXS/single_state_mgxs_01_readfromchi.cc:533-535 | the transform loop divides every entry by the accumulated sum |
| XSBlocks.Inverted | framework/ChiPhysics/PhysicsMaterial/MultiGroupXS/single_state_mgxs_01_readfromchi.cc:339-340 | every inverted velocity is positive and multiplies with the velocity to one |
| XSBlocks.Invert | framework/ChiPhysics/PhysicsMaterial/MultiGroupXS/single_state_mgxs_01_readfromchi.cc:339-340 | the loop replaces every velocity by its reciprocal |
| XSBlocks.SplitAddsUp | framework/ChiPhysics/PhysicsMaterial/MultiGroupXS/single_state_mgxs_01_readfromchi.cc:434-438 | prompt and delayed yields add back up to nu and are non-negative when beta is a fraction and nu non-negative |
| XSBlocks.SplitYield | framework/ChiPhysics/PhysicsMaterial/MultiGroupXS/single_state_mgxs_01_readfromchi.cc:434-438 | the loop computes nu_prompt = (1 - beta) nu and nu_delayed = beta nu |
| ChiXS.Rethrown | framework/ChiPhysics/PhysicsMaterial/MultiGroupXS/single_state_mgxs_01_readfromchi.cc:645-668 | a runtime_error is rethrown as runtime_error and every other error (out_of_range is a logic_error) as logic_error |
| ChiXS.Resized | framework/ChiPhysics/PhysicsMaterial/MultiGroupXS/single_state_mgxs_01_readfromchi.cc:301 | precursors_.resize keeps the existing entries and fills new ones with default precursors |
| ChiXS.CountLines | framework/ChiPhysics/PhysicsMaterial/MultiGroupXS/single_state_mgxs_01_readfromchi.cc:268-302 | NUM_GROUPS must be positive, NUM_MOMENTS and NUM_PRECURSORS non-negative (logic_error otherwise); the scattering order is max(0, M - 1) and the precursor list is resized to the count |
| ChiXS.CrossSectionChecks | framework/ChiPhysics/PhysicsMaterial/MultiGroupXS/single_state_mgxs_01_readfromchi.cc:320-365 | SIGMA_T and SIGMA_A must be non-negative, INV_VELOCITY and VELOCITY positive; VELOCITY is stored as its reciprocal |
| ChiXS.OptionalData | framework/ChiPhysics/PhysicsMaterial/MultiGroupXS/single_state_mgxs_01_readfromchi.cc:367-400 | SIGMA_F and NU_SIGMA_F data with no nonzero entry is cleared; otherwise a negative entry is a logic_error and the data is kept (the model's NU_DELAYED branch also uses this rule, which is the corrected branch in Findings) |
| ChiXS.YieldChecks | framework/ChiPhysics/PhysicsMaterial/MultiGroupXS/single_state_mgxs_01_readfromchi.cc:407-500 | NU and NU_PROMPT entries must be zero or above one, BETA entries in [0, 1], once the block has a positive entry |
| ChiXS.SpectrumChecks | framework/ChiPhysics/PhysicsMaterial/MultiGroupXS/single_state_mgxs_01_readfromchi.cc:519-557 | CHI and CHI_PROMPT need a positive entry and no negative one, and are stored divided by their sum |
| ChiXS.ChiBlock | framework/ChiPhysics/PhysicsMaterial/MultiGroupXS/single_state_mgxs_01_readfromchi.cc:519-536 | a CHI block succeeds exactly when it reads without error and its values have a positive entry and none negative; the stored spectrum has G entries summing to one |
| ChiXS.FractionalYieldChecks | framework/ChiPhysics/PhysicsMaterial/MultiGroupXS/single_state_mgxs_01_readfromchi.cc:606-629 | fractional yields need a positive entry and all entries in [0, 1], and are stored normalised to sum one |
| ChiXS.SplitFromBeta | framework/ChiPhysics/PhysicsMaterial/MultiGroupXS/single_state_mgxs_01_readfromchi.cc:501-512 | once NU and BETA are both read with precursors present, the prompt and delayed yields add up to NU |
| ChiXS.NuDelayedKeepsPrompt | framework/ChiPhysics/PhysicsMaterial/MultiGroupXS/single_state_mgxs_01_readfromchi.cc:463-479 | the corrected NU_DELAYED branch never touches the prompt yield and keeps the delayed yield cleared or valid |
| ChiXS.NuDelayedAsWrittenDropsPrompt | framework/ChiPhysics/PhysicsMaterial/MultiGroupXS/single_state_mgxs_01_readfromchi.cc:467-474 | any uniformly zero NU_DELAYED block clears the prompt yield read before it and keeps its zeros, where the corrected branch keeps the prompt yield and clears the delayed one |
| ChiXS.ChiDelayedChecks | framework/ChiPhysics/PhysicsMaterial/MultiGroupXS/single_state_mgxs_01_readfromchi.cc:560-590 | CHI_DELAYED is ignored without precursors; otherwise every precursor's spectrum must be valid and is stored summing to one |
| ChiXS.AsWrittenAcceptsMissingSpectra | framework/ChiPhysics/PhysicsMaterial/MultiGroupXS/single_state_mgxs_01_readfromchi.cc:759-771 | the delayed-data check as written passes whenever all other delayed data is read but there are fewer emission spectra than precursors (none without a CHI_DELAYED block); the corrected check rejects every such case |
| ChiXS.FissionableIff | framework/ChiPhysics/PhysicsMaterial/MultiGroupXS/single_state_mgxs_01_readfromchi.cc:683-694 | fissionable exactly when sigma_f, nu_sigma_f or a production matrix was read; otherwise all fission data is cleared |
| ChiXS.YieldSpecificationRequired | framework/ChiPhysics/PhysicsMaterial/MultiGroupXS/single_state_mgxs_01_readfromchi.cc:700-737 | exactly one of total and prompt yield, exactly one of steady-state and prompt spectrum, paired consistently, or a logic_error |
| ChiXS.PrecursorsFilled | framework/ChiPhysics/PhysicsMaterial/MultiGroupXS/single_state_mgxs_01_readfromchi.cc:749-783 | with precursors, every precursor takes its decay constant, fractional yield and its own emission spectrum, and there is a spectrum for each |
| ChiXS.ProductionMatrixBranch | framework/ChiPhysics/PhysicsMaterial/MultiGroupXS/single_state_mgxs_01_readfromchi.cc:830-870 | a production matrix is refused with precursors (runtime_error) or without sigma_f (logic_error); otherwise nu_sigma_f is the matrix's column sums |
| ChiXS.ProductionMatrixConserves | framework/ChiPhysics/PhysicsMaterial/MultiGroupXS/single_state_mgxs_01_readfromchi.cc:816-827 | a production matrix built from a spectrum summing to one has column sums equal to the production cross section |
| ChiXS.FinalCheckNeverFires | framework/ChiPhysics/PhysicsMaterial/MultiGroupXS/single_state_mgxs_01_readfromchi.cc:872-873 | on every state the reader reaches, a fissionable material ends with sigma_f defined |
| ChiXS.ReadAllKeepsReachable | framework/ChiPhysics/PhysicsMaterial/MultiGroupXS/single_state_mgxs_01_readfromchi.cc:262-671 | every record keeps the precursor list matched to the precursor count and no production data before the group count |
| ChiXS.ReadAllStops | framework/ChiPhysics/PhysicsMaterial/MultiGroupXS/single_state_mgxs_01_readfromchi.cc:645-668 | once a record throws, the remaining records change nothing |
| ChiXS.Products | framework/ChiPhysics/PhysicsMaterial/MultiGroupXS/single_state_mgxs_01_readfromchi.cc:797-814 | entry g is the product of the two vectors' entries g |
| ChiXS.Outer | framework/ChiPhysics/PhysicsMaterial/MultiGroupXS/single_state_mgxs_01_readfromchi.cc:821-827 | row g, column gp of the production matrix is chi[g] times the production cross section at gp |
| ChiXS.ReadVectorBlock | framework/ChiPhysics/PhysicsMaterial/MultiGroupXS/single_state_mgxs_01_readfromchi.cc:320-629 | reading a one-dimensional block gives the block's checked state change, with the corrected NU_DELAYED branch |
| ChiXS.NormaliseSpectra | framework/ChiPhysics/PhysicsMaterial/MultiGroupXS/single_state_mgxs_01_readfromchi.cc:566-586 | every emission spectrum is checked and normalised, or a logic_error |
| ChiXS.ReadRecord | framework/ChiPhysics/PhysicsMaterial/MultiGroupXS/single_state_mgxs_01_readfromchi.cc:262-671 | one line of the file and its block give the step's state or error, with the corrected NU_DELAYED branch |
| ChiXS.Multiply | framework/ChiPhysics/PhysicsMaterial/MultiGroupXS/single_state_mgxs_01_readfromchi.cc:797-814 | the loops compute the entrywise products |
| ChiXS.BuildProductionMatrix | framework/ChiPhysics/PhysicsMaterial/MultiGroupXS/single_state_mgxs_01_readfromchi.cc:821-827 | the nested loops build the outer product of spectrum and production cross section |
| ChiXS.SumColumns | framework/ChiPhysics/PhysicsMaterial/MultiGroupXS/single_state_mgxs_01_readfromchi.cc:852-855 | the nested loops compute the column sums of the production matrix |
| ChiXS.FissionFromYields | framework/ChiPhysics/PhysicsMaterial/MultiGroupXS/single_state_mgxs_01_readfromchi.cc:700-828 | the fission data computed from yields and spectra, after the corrected delayed-data check |
| ChiXS.FissionFromMatrix | framework/ChiPhysics/PhysicsMaterial/MultiGroupXS/single_state_mgxs_01_readfromchi.cc:830-870 | the fission data computed from a production matrix |
| ChiXS.FinishReading | framework/ChiPhysics/PhysicsMaterial/MultiGroupXS/single_state_mgxs_01_readfromchi.cc:683-874 | the fission stage, with the corrected delayed-data check, applied to the state reached |
| ChiXS.SingleStateMGXS.MakeFromChiXSFile | framework/ChiPhysics/PhysicsMaterial/MultiGroupXS/single_state_mgxs_01_readfromchi.cc:16-875 | the material is the state the records reach and the first error thrown, or the finished material and the fission stage's error, with the two corrected branches of Findings in place of the code as written |
| ParallelVectors.DefineExtents | framework/math/ParallelVector/ParallelSTLVector.cc:492-516 | the extents start at 0 and each one is the previous plus that process's local size |
| ParallelVectors.ExtentsWellFormed | framework/math/ParallelVector/ParallelSTLVector.cc:506-513 | the extents never decrease and end at the total of the local sizes |
| ParallelVectors.OwnerUnique | framework/math/ParallelVector/ParallelSTLVector.cc:518-526 | at most one process's range holds a global id |
| ParallelVectors.OwnerExists | framework/math/ParallelVector/ParallelSTLVector.cc:518-526 | every global id below the total lies in some process's range |
| ParallelVectors.PlusScaledUndone | framework/math/ParallelVector/ParallelSTLVector.cc:268-288 | adding a y and then adding -a y gives the vector back |
| ParallelVectors.ScaledPlusIsScaleThenAdd | framework/math/ParallelVector/ParallelSTLVector.cc:290-303 | a x + y is scaling by a followed by adding y |
| ParallelVectors.ShiftedUndone | framework/math/ParallelVector/ParallelSTLVector.cc:311-315 | shifting by a and then by -a gives the vector back |
| ParallelVectors.ScaledUndone | framework/math/ParallelVector/ParallelSTLVector.cc:305-309 | scaling by a non-zero a and then by 1/a gives the vector back |
| ParallelVectors.BlockSetAsWrittenWritesBeforeBuffer | framework/math/ParallelVector/ParallelSTLVector.cc:115-124 | the checks as written admit exactly the calls with a negative offset, a positive count within the source and an end within the local size, which the corrected checks reject; offset -1 with one value into a one-entry vector is one |
| ParallelVectors.AppendedTwice | framework/math/ParallelVector/ParallelSTLVector.cc:223-251 | caching operations in two calls is caching their concatenation |
| ParallelVectors.ValidPrefix | framework/math/ParallelVector/ParallelSTLVector.cc:235-251 | the longest prefix of ids inside [0, global size): all of it is valid and the id after it is not |
| ParallelVectors.LocalMode | framework/math/ParallelVector/ParallelSTLVector.cc:379-380 | 0 with no cached operation, 1 with sets only, 2 with adds only, 3 with both |
| ParallelVectors.LocalOps | framework/math/ParallelVector/ParallelSTLVector.cc:405-411 | the operations the local process owns, drawn from the cache in order |
| ParallelVectors.SetModeUntouched | framework/math/ParallelVector/ParallelSTLVector.cc:414-424 | in set mode an entry no local operation names keeps its value |
| ParallelVectors.SetModeLastWins | framework/math/ParallelVector/ParallelSTLVector.cc:414-424 | in set mode an entry takes the value of the last operation naming it |
| ParallelVectors.AddModeSums | framework/math/ParallelVector/ParallelSTLVector.cc:414-424 | in add mode an entry gains the sum of the values of every operation naming it |
| ParallelVectors.LocalOpsInRange | framework/math/ParallelVector/ParallelSTLVector.cc:414-418 | every owned operation maps to a local index inside the vector, so the mapping check never fires |
| ParallelVectors.ParallelSTLVector.constructor | framework/math/ParallelVector/ParallelSTLVector.cc:23-30 | a zero vector of the local size with its sizes, location, extents and empty caches |
| ParallelVectors.ParallelSTLVector.Get | framework/math/ParallelVector/ParallelSTLVector.cc:74-92 | the local entry, or invalid_argument for an index outside the local vector |
| ParallelVectors.ParallelSTLVector.SetAll | framework/math/ParallelVector/ParallelSTLVector.cc:94-97 | every entry becomes the value |
| ParallelVectors.ParallelSTLVector.SetFrom | framework/math/ParallelVector/ParallelSTLVector.cc:99-109 | the first local-size entries of the input, or invalid_argument when it is shorter |
| ParallelVectors.ParallelSTLVector.BlockSet | framework/math/ParallelVector/ParallelSTLVector.cc:111-127 | num entries of y copied from offset when the corrected checks hold, invalid_argument and no change otherwise |
| ParallelVectors.ParallelSTLVector.SetValueAt | framework/math/ParallelVector/ParallelSTLVector.cc:223-233 | an id outside [0, global size) is invalid_argument; otherwise the operation is appended to the cache its type selects |
| ParallelVectors.ParallelSTLVector.SetValuesAt | framework/math/ParallelVector/ParallelSTLVector.cc:235-251 | size mismatch is invalid_argument; otherwise the valid prefix of operations is cached and the first invalid id is invalid_argument |
| ParallelVectors.ParallelSTLVector.PlusAY | framework/math/ParallelVector/ParallelSTLVector.cc:268-288 | x + a y, or logic_error and no change when the sizes differ |
| ParallelVectors.ParallelSTLVector.AXPlusY | framework/math/ParallelVector/ParallelSTLVector.cc:290-303 | a x + y, or logic_error and no change when the sizes differ |
| ParallelVectors.ParallelSTLVector.Scale | framework/math/ParallelVector/ParallelSTLVector.cc:305-309 | every entry multiplied by a |
| ParallelVectors.ParallelSTLVector.Shift | framework/math/ParallelVector/ParallelSTLVector.cc:311-315 | every entry increased by a |
| ParallelVectors.ParallelSTLVector.FindOwnerPID | framework/math/ParallelVector/ParallelSTLVector.cc:518-526 | invalid_argument past the global size; otherwise the first process whose range holds the id, or -1 when none does |
| ParallelVectors.ParallelSTLVector.OwnedOps | framework/math/ParallelVector/ParallelSTLVector.cc:405-411 | the loop keeps exactly the operations the local process owns |
| ParallelVectors.ParallelSTLVector.ApplyLocal | framework/math/ParallelVector/ParallelSTLVector.cc:414-424 | the loop applies the owned operations, setting or adding |
| ParallelVectors.ParallelSTLVector.Assemble | framework/math/ParallelVector/ParallelSTLVector.cc:375-490 | mixed sets and adds are a logic_error; nothing cached anywhere does nothing; a mode clash with other processes is a logic_error; otherwise the owned operations are applied and their cache cleared |
| Varyings.Datum.Type | framework/data_types/varying.h:112-119 | the type tag matches the kind of stored value, in both directions |
| Varyings.Cast | framework/data_types/varying.h:71-75 | a static_cast to an integer type: the result fits the type and differs from the input by a multiple of 2^bits |
| Varyings.CastFits | framework/data_types/varying.h:71-75 | a value that already fits its type is unchanged by the cast |
| Varyings.LexTrichotomy | framework/data_types/varying.h:187-190 | the lexicographic order on byte and character codes is a strict total order |
| Varyings.LexTransitive | framework/data_types/varying.h:187-190 | the lexicographic order is transitive |
| Varyings.ByteCodesInjective | framework/data_types/varying.h:141 | byte strings compare equal exactly when their codes do |
| Varyings.CharCodesInjective | framework/data_types/varying.h:143 | strings compare equal exactly when their character codes do |
| Varyings.UnrelatedTypes | framework/data_types/varying.h:134-209 | values of different types, and a Void value, are never equal or ordered; only != holds |
| Varyings.Equal | framework/data_types/varying.h:134-154 | true only for two non-Void values of one type; EqualIsIdentity shows it is then equality of the stored values |
| Varyings.NotEqual | framework/data_types/varying.h:156-159 | true whenever the types differ or the left value is Void |
| Varyings.Greater | framework/data_types/varying.h:160-180 | true only for two non-Void values of one type |
| Varyings.Less | framework/data_types/varying.h:181-201 | true only for two non-Void values of one type |
| Varyings.GreaterEqual | framework/data_types/varying.h:202-205 | true only for two non-Void values of one type |
| Varyings.LessEqual | framework/data_types/varying.h:206-209 | true only for two non-Void values of one type |
| Varyings.TrichotomyComplements | framework/data_types/varying.h:202-209 | for two non-Void values of one type, >= holds exactly when < does not and <= exactly when > does not |
| Varyings.EqualIsIdentity | framework/data_types/varying.h:134-154 | == on a non-Void value is equality of type and stored value |
| Varyings.GreaterIsConverse | framework/data_types/varying.h:160-209 | > is < with the operands swapped, and >= is <= swapped |
| Varyings.Trichotomy | framework/data_types/varying.h:134-209 | for two non-Void values of one type exactly one of <, ==, > holds, so >= is not-< and <= is not-> |
| Varyings.LessTransitive | framework/data_types/varying.h:181-201 | < is transitive |
| Varyings.Category | framework/data_types/varying.h:231-253 | the generic constructor tags a bool BOOL, a floating value FLOAT and an integer INTEGER |
| Varyings.Stored | framework/data_types/varying.h:231-253 | the stored value has the tag the constructor assigns: a bool or floating value is stored as given, and an integer as its int64 cast, which fits 64 bits and differs from it by a multiple of 2^64 |
| Varyings.CheckTypeMatch | framework/data_types/varying.h:222-223 | success exactly when the tags agree, a logic_error otherwise |
| Varyings.ReadInteger | framework/data_types/varying.h:455-478 | an integer read fails with logic_error exactly on a non-integer tag or a negative value read as unsigned; otherwise the result fits the requested type and equals the stored value modulo 2^bits |
| Varyings.IntegerRoundTrip | framework/data_types/varying.h:231-253 | an integer that fits its type reads back unchanged, except an unsigned value at or above 2^63, which is stored negative and then refused |
| Varyings.SignedReadIsModular | framework/data_types/varying.h:455-463 | reading a signed integer always succeeds and keeps the stored value modulo 2^bits |
| Varyings.Varying.constructor | framework/data_types/varying.h:231-253 | the tag and value the generic constructor stores |
| Varyings.Varying.FromString | framework/data_types/varying.h:311 | a STRING value holding the string |
| Varyings.Varying.FromCString | framework/data_types/varying.h:314-317 | a STRING value, the empty string for a null pointer |
| Varyings.Varying.FromBytes | framework/data_types/varying.h:309 | an ARBITRARY_BYTES value holding the bytes |
| Varyings.Varying.AssignBool | framework/data_types/varying.h:342-349 | the variable becomes a BOOL holding the value |
| Varyings.Varying.AssignInteger | framework/data_types/varying.h:352-359 | the variable becomes an INTEGER holding the value cast to int64 |
| Varyings.Varying.AssignFloat | framework/data_types/varying.h:362-369 | the variable becomes a FLOAT holding the value |
| Varyings.Varying.AssignString | framework/data_types/varying.h:339 | the variable becomes a STRING holding the value |
| Varyings.Varying.AssignBytes | framework/data_types/varying.h:337 | the variable becomes ARBITRARY_BYTES holding the value |
| Varyings.Varying.GetBool | framework/data_types/varying.h:426-432 | the stored bool exactly when the tag is BOOL, otherwise logic_error |
| Varyings.Varying.GetFloat | framework/data_types/varying.h:435-443 | the stored float exactly when the tag is FLOAT, otherwise logic_error |
| Varyings.Varying.GetString | framework/data_types/varying.h:446-452 | the stored string exactly when the tag is STRING, otherwise logic_error |
| Varyings.Varying.GetInteger | framework/data_types/varying.h:455-478 | the integer read of the stored value with the requested width and signedness: logic_error exactly on a non-integer tag or a negative unsigned read, otherwise a value of the type equal to the stored one modulo 2^bits |
| Varyings.Varying.Eq | framework/data_types/varying.h:371-372 | true exactly when the left value is not Void and both hold the same typed value |
| Varyings.Varying.Ne | framework/data_types/varying.h:374-375 | true exactly when the left value is Void or the two values differ |
| Varyings.Varying.Gt | framework/data_types/varying.h:378 | a > b holds exactly when b < a |
| Varyings.Varying.Ge | framework/data_types/varying.h:380-383 | a >= b is b <= a, and for non-Void values of one type exactly not a < b |
| Varyings.Varying.Lt | framework/data_types/varying.h:385 | a < b holds only for non-Void values of one type, and then neither == nor > holds |
| Varyings.Varying.Le | framework/data_types/varying.h:387-390 | a <= b is < or ==, and for non-Void values of one type exactly not a > b |
| InputParams.IsParameterIgnored | framework/parameters/input_parameters.cc:22-23 | true exactly for the one system-ignored name chi_obj_type |
| InputParams.Value | framework/parameters/paramater_block.cc:118-140 | a value block with a value gives it; a value block without one is a runtime_error; a block or array is a logic_error |
| InputParams.AssignOne | framework/parameters/input_parameters.cc:327-366 | one assignment step never adds or removes a declared parameter |
| InputParams.AssignStage | framework/parameters/input_parameters.cc:327-368 | the assignment loop keeps the set of declared names |
| InputParams.StageUntouched | framework/parameters/input_parameters.cc:327-366 | a declared parameter that no supplied parameter names keeps its value |
| InputParams.CheckedAgainstDeclared | framework/parameters/input_parameters.cc:333-361 | with unique supplied names, each supplied parameter is checked against the declared entry, not an earlier assignment |
| InputParams.StageThrows | framework/parameters/input_parameters.cc:351-357 | the loop throws exactly when reading the value of some constrained supplied parameter throws |
| InputParams.StageRejects | framework/parameters/input_parameters.cc:336-361 | without a throw, the loop reports an error exactly when some supplied parameter has the wrong type (mismatch not allowed) or violates its constraint |
| InputParams.StageStores | framework/parameters/input_parameters.cc:336-365 | without a throw, each supplied parameter that passes its checks replaces the declared one and one that fails leaves it |
| InputParams.ThrowStops | framework/parameters/input_parameters.cc:327-366 | once reading a value throws, later supplied parameters change nothing |
| InputParams.MergedValid | framework/parameters/input_parameters.cc:26-114 | merging two valid sets of tables keeps tags and doc strings on declared parameters |
| InputParams.MergedKeepsEntries | framework/parameters/input_parameters.cc:26-114 | merging disjoint tables keeps every entry of both sides with its value in every table: parameters, class tags, doc strings, deprecation warnings and errors, renamed errors, mismatch permissions, block links and range constraints |
| InputParams.InputParameters.FindMissingRequired | framework/parameters/input_parameters.cc:243-260 | true exactly when a required parameter without any deprecation or renaming tag is not supplied |
| InputParams.InputParameters.FindUnknown | framework/parameters/input_parameters.cc:268-281 | true exactly when a non-ignored supplied parameter is undeclared or renamed |
| InputParams.InputParameters.FindDeprecatedError | framework/parameters/input_parameters.cc:308-324 | true exactly when a non-ignored supplied parameter is declared and marked deprecated with an error |
| InputParams.InputParameters.AssignValues | framework/parameters/input_parameters.cc:327-366 | the loop's outcome and the new values are the assignment stage over the supplied parameters |
| InputParams.InputParameters.AssignParameters | framework/parameters/input_parameters.cc:230-369 | a missing required parameter or an unknown or renamed one is invalid_argument and changes nothing; a deprecation error ends the program; otherwise the values are the stage's, and the result is its throw, invalid_argument when it rejected something, or success |
| InputParams.InputParameters.MarkDeprecatedWarning | framework/parameters/input_parameters.cc:373-380 | logic_error exactly when the parameter is not declared; otherwise the warning is recorded |
| InputParams.InputParameters.MarkDeprecatedError | framework/parameters/input_parameters.cc:385-392 | logic_error exactly when the parameter is not declared; otherwise the error is recorded |
| InputParams.InputParameters.MarkRenamed | framework/parameters/input_parameters.cc:397-403 | logic_error exactly when the parameter is not declared; otherwise the renaming is recorded |
| InputParams.InputParameters.ConstrainParameterRange | framework/parameters/input_parameters.cc:407-423 | logic_error for an undeclared parameter, invalid_argument for a block or array, otherwise the constraint is recorded |
| InputParams.InputParameters.Merge | framework/parameters/input_parameters.cc:26-114 | a shared parameter name is invalid_argument; success exactly when no table shares a key, and then every table is the union |

## Left out

- NDArray: the move constructor and move assignment, `std::bad_alloc`, and the templates over `std::array` and initializer lists are not modelled. Indices are unbounded integers: a negative index, which the source's `size_t` wraps to a huge value, is reported as `out_of_range`.
- CHI_VECTOR: `InsertItem`, `KickItem`, `ClearVector` (which also deletes the items) and the thread-protection flag are not modelled. Items are values of a type parameter, not raw pointers.
- ChiVectors.ChiVector.SetItem: requires that an index the source's guard admits lies inside the buffer, because the write past the buffer that the guard allows is undefined behaviour (see Findings).
- ChiVectors.ChiVector.GetItem: the same requirement, for the same reason.
- ChiVectors.ChiVector.ClearItem: requires that an index up to the stack count lies inside the buffer, for the same reason.
- DirectedGraph: `chi_directed_graph.h` is not part of this model. Its accessors are assumed to visit only valid vertices, and the sink, source and valid counts are assumed to count valid vertices. The main model counts as a sink every valid vertex without downstream edges, and as a source every valid vertex without upstream edges, including vertices with no edges at all. FasPhasesStrictCount records the other reading, in which a sink must also have an upstream edge and a source a downstream edge.
- DirectedGraphs.DirectedGraph.FasPhasesStrictCount: only the sink and source phases are modelled under the strict reading. That the max-delta step then finds a vertex whose delta is above -100 is not proved, because edge weights are not kept mirrored between the endpoints.
- DirectedGraph: the per-vertex context pointers, `PrintGraphviz` and all logging are not modelled.
- DirectedGraphs.EraseEdge: the upstream set of the target loses the released vertex's id, as in the source. Mirrored edge sets are kept only when that id is the vertex's index (see Findings).
- DirectedGraphs.ReleaseDownstream: Kahn's invariant with mirrored edge sets is kept only when every id is its vertex's index, for the same reason.
- DirectedGraphs.DirectedGraph.GenerateTopologicalSort: the order properties are proved only when every id equals its vertex's index. With other ids the erase by id leaves upstream edges behind, and only the length of the result and that it lists ids are stated.
- DirectedGraphs.DirectedGraph.GenerateTopologicalSort: the contract proves that a non-empty result is a valid order. It does not prove that an acyclic graph always yields a non-empty result.
- DirectedGraphs.DirectedGraph.SCCAlgorithm: the source ignores the validity flags, and so does the model. Components may contain vertices flagged invalid, as in the source.
- DirectedGraphs.DirectedGraph.ExploreEdges: the loop over the neighbours of u is a method of its own, and each pass is ExploreEdge. The recursion is SCCAlgorithm, ExploreEdges, ExploreEdge and SCCAlgorithm again. It is bounded by the number of undiscovered vertices.
- DirectedGraphs.DirectedGraph.FindStronglyConnectedComponents: the order of the components and of the vertices inside each component is not stated.
- DirectedGraphs.DirectedGraph.RemoveCyclicDependencies: the loop also stops, with the ghost `stalled` set, when a round removes no edge and components remain. The source would repeat forever there. That a round always removes an edge is not proved, so only a successful call with `stalled` false proves that no cycle through two distinct vertices remains. Self-loops are not cycles in this sense, as they are not components in the source.
- DirectedGraphs.DirectedGraph.FindApproxMinimumFAS: sinks are appended to the second list as the source does, not prepended as in the published heuristic.
- DirectedGraphs.DirectedGraph.RemoveCyclicDependencies: breaking a component calls the as-written FindApproxMinimumFAS. Assuming GetNumSinks counts a vertex with no edges as a sink, it fails with a logic error on every component of four or more vertices without self-loops (see Findings), so on such graphs the call fails before the graph is acyclic. Under the strict reading of the counts (FasPhasesStrictCount) the sink and source phases never empty the graph, and this failure does not arise from them.
- DirectedGraphs.DirectedGraph.BreakComponent: the edges taken from a two- or three-vertex component are those the source lists; that they break every cycle of the component is not proved.
- OrthogonalMeshGenerator: `LightWeightFace::has_neighbor` is assumed to start false, because the mesh-type header is not part of this model.
- OrthoMesh.Face2DAsWritten: at the left and right ends of a row the source's x-direction tests read the cell map one place before or past the row, which is undefined behaviour in C++. The model uses a plain value there, and the boundary assignment that follows always replaces it.
- OrthogonalMeshGenerator: `ComputeCentroidsAndCheckQuality`, `BuildMeshConnectivity`, `AddCell` and the parameter-block input parsing are not modelled.
- ParallelVectors.ParallelSTLVector.BlockSet: applies the corrected start-offset check, so a negative offset whose end lies in range is an invalid_argument here, where the source writes before the buffer (see Findings).
- MeshContinuum.MakeGridFaceHistogram: requires at least one face, because the source calls `front()` and `back()` on the sorted list. Ratios are exact rationals rather than doubles.
- MeshContinuum.FindAssociatedCellVertices: the `short` entries of the result are unbounded integers, so their overflow is not modelled. `Chi::Exit` is the `ProgramExit` failure.
- MeshContinuum: `FindAssociatedVertices` is not part of this model.
- SurfaceMesh: the face-record header is not part of this model. Unset neighbour and index slots are assumed to be -1.
- SurfaceMesh: face normals and centroids (square roots and cross products), the word tokenizer, `stoi`/`stod` failures and the exit on a missing file are not modelled.
- SurfaceMesh: `ImportFromTriangleFiles` and `ExportToPolyFile` are not modelled.
- SurfaceMesh.SurfaceMesh.ImportFromOBJFile: the polygon geometry pass reads the first three vertices of each polygon, which is undefined for a polygon without vertices, such as the one a plain `f` line without '/' gives (see PlainFaceLineGivesEmptyPolygon); that pass is not modelled.
- SurfaceMesh.ObjRoundTrip: vertices are compared by count only, because the export's `%9.6f` rounding is not modelled.
- Chi cross-section reader: the file is abstracted to typed records: keyword lines and whole blocks whose lines have the block's shape. An unterminated block, which makes the source loop at end of file, is not modelled.
- Chi cross-section reader: `SparseMatrix::Insert` is not part of this model. It is taken to overwrite an entry, without a bounds check.
- Chi cross-section reader: `Clear`, `ComputeAbsorption` and `ComputeDiffusionParameters` are not part of this model, so `sigma_a` is not derived.
- Chi cross-section reader: reads past the end of a vector, which are undefined behaviour in the source, give 0. A division by zero, which is infinite in IEEE arithmetic, gives 0.
- ChiXS.OptionalData: the reader's NU_DELAYED branch uses this rule, which is the corrected branch, rather than the source's clearing of the prompt yield (see Findings).
- ChiXS.ReadVectorBlock: a NU_DELAYED block with no nonzero entry clears the delayed yield and keeps the prompt yield (the corrected branch); the source clears the prompt yield instead (see Findings).
- ChiXS.ReadRecord: the same corrected NU_DELAYED branch, through ReadVectorBlock.
- ChiXS.FissionFromYields: uses the corrected delayed-data check, which requires an emission spectrum for every precursor. A file with precursors and no CHI_DELAYED block is a logic_error here, where the source reads past the spectra (see Findings).
- ChiXS.FinishReading: the same corrected delayed-data check, through FissionFromYields.
- ChiXS.SingleStateMGXS.MakeFromChiXSFile: uses both corrected branches. It differs from the source on a fissionable file with an all-zero NU_DELAYED block, as follows.
  - With precursors and the NU_PROMPT block after NU_DELAYED, the source succeeds: the later prompt yield is kept, and the zero delayed yield passes the check at lines 759-770. The model fails with a logic error there, because the delayed yield was cleared.
  - With precursors and NU_PROMPT before NU_DELAYED, both fail with a logic error, at different checks. Without an NU block, the source throws at line 703, and the model throws at line 759 unless the CHI and CHI_PROMPT blocks already fail the checks at lines 716-737. With an NU block, the source throws at lines 716-717, 722-723, 728-733 or 752-753, depending on the CHI and CHI_PROMPT blocks. The model keeps the prompt yield and throws at the ambiguous-yield check of lines 709-710.
  - Without precursors, with NU_PROMPT before NU_DELAYED and no NU block, the model can succeed with the prompt yield. The source has cleared it and throws at lines 703-707.
  - Without precursors and with a total NU block, both succeed. The source's delayed production cross section becomes G zeros (lines 809-814). The model leaves it unchanged.
  - With precursors and no CHI_DELAYED block, the model fails, where the source reads past the emission spectra.
- Chi cross-section reader: the partially updated object after a throw and all messages and warnings are not modelled.
- ParallelSTLVector: MPI is not modelled. `ComputeNorm`, the remote half of `Assemble` and the `MPI_Allgather` in `DefineExtents` are left out. The `MPI_Allreduce` of the operation mode becomes the `globalMode` parameter.
- ParallelSTLVector: ghosted vectors and the `uint64_t` overflow of extents are not modelled. Doubles are modelled as reals.
- Varying: `varying.cc` is not part of this model. The string and byte constructors, the typed `*Value` accessors and `CheckTypeMatch` are modelled from their declarations and documentation.
- Varying: floating-point precision and NaN are not modelled. Strings compare lexicographically by character code.
- Varyings.Equal: on two ARBITRARY_BYTES values the source calls `BytesValue()`, which `VaryingArbitraryType` does not override (varying.h:123-126). The call goes to `VaryingType::BytesValue` in `varying.cc`, which is not part of this model. The model compares the stored bytes instead.
- Varyings.Less: the same gap for ARBITRARY_BYTES (varying.h:188). The model compares the stored bytes lexicographically.
- Varyings.Greater: the same gap for ARBITRARY_BYTES (varying.h:167). The model compares the stored bytes lexicographically.
- Varyings.NotEqual, Varyings.GreaterEqual and Varyings.LessEqual: they inherit the same gap through Equal, Greater and Less.
- Varyings.Varying.Eq, Ne, Gt, Ge, Lt and Le: the operators of `Varying` compare the held values through `VaryingType` (varying.h:371-390), so on two ARBITRARY_BYTES values they inherit the same gap. Their contracts state that the stored bytes are compared.
- Varying: the copy and move constructors and `operator=(const Varying&)` are not modelled.
- InputParameters: logging, deprecation warnings and error-message text are not modelled. `AllowableRange` is an abstract predicate, and `SortParameters` ordering is not modelled.
- InputParameters: `SetParameterTypeMismatchAllowed`, `LinkParameterToBlock` and the `Add*` adders are not modelled.
- InputParams.InputParameters.Merge: when a duplicate is found, the source has already merged the earlier entries, and the model leaves the state unspecified in that case.
- InputParams.InputParameters.AssignParameters: supplied parameter names are assumed unique, as `ParameterBlock::AddParameter` enforces.

## Findings

| source | as written | input that shows it | evidently intended | confidence | as-written member | corrected member |
|---|---|---|---|---|---|---|
| CHI_TECH/CHI_VECTOR/chi_vector.h:300 | the guard rejects only `index > stackCount`, so `index == stackCount` is read | a full 100-slot stack and index 100 | reject `index >= stackCount` | not executed | ChiVectors.AsWrittenGuardReachesPastBuffer | ChiVectors.ChiVector.GetItemChecked |
| framework/graphs/chi_directed_graph.cc:346-356 | the max-delta step runs even when the sink and source steps have emptied the graph, and then removes vertex -1, assuming GetNumSinks counts a vertex with no edges as a sink | any non-empty graph without self-loops, such as the cycle 0→1→2→3→0 | run the max-delta step only while a vertex is left | not executed; assumes GetNumSinks counts a vertex with no edges as a sink, and under the strict reading (FasPhasesStrictCount) the phases never empty the graph | DirectedGraphs.DirectedGraph.FindApproxMinimumFASAsWritten | DirectedGraphs.DirectedGraph.FindApproxMinimumFAS |
| framework/graphs/chi_directed_graph.cc:264-275 | Kahn's sort erases the released vertex's id from the target's upstream set, which holds vertex indices | AddVertexWithId(5), AddVertexWithId(6), AddEdge(0, 1): vertex 1 keeps 0 upstream, is never released, and the sort returns an empty list | erase the released vertex's index | not executed | DirectedGraphs.EraseEdgeByIdKeepsUpstream | DirectedGraphs.EraseEdgeAtIndex |
| framework/mesh/MeshGenerator/OrthogonalMeshGenerator.cc:270-271 | the x-direction neighbour tests use the row index i instead of the column index j | a 3 x 3 node grid | test the column index j | not executed | OrthoMesh.Face2DAsWrittenMissesLeftNeighbour | OrthoMesh.Face2DNeighbourAcross |
| framework/ChiPhysics/PhysicsMaterial/MultiGroupXS/single_state_mgxs_01_readfromchi.cc:467-474 | a uniformly zero NU_DELAYED block clears `nu_prompt` and keeps the zero delayed yield | NU_PROMPT 2.5 followed by a NU_DELAYED block of zeros | clear `nu_delayed` | not executed | ChiXS.NuDelayedAsWrittenDropsPrompt | ChiXS.NuDelayedKeepsPrompt |
| framework/ChiPhysics/PhysicsMaterial/MultiGroupXS/single_state_mgxs_01_readfromchi.cc:759-782 | the delayed-data check accepts an empty list of emission spectra, and the copy then reads `emission_spectra[j]` out of bounds | one precursor with prompt data, NU_DELAYED, decay constants and fractional yields, but no CHI_DELAYED block | also require a spectrum for every precursor | not executed | ChiXS.AsWrittenAcceptsMissingSpectra | ChiXS.PrecursorsFilled |
| framework/math/ParallelVector/ParallelSTLVector.cc:115-124 | `BlockSet` checks the count and the end offset but not the start offset | offset -1, one value, local size 1, one-entry source | also reject a negative offset, as `BlockCopyLocalValues` does | not executed | ParallelVectors.BlockSetAsWrittenWritesBeforeBuffer | ParallelVectors.ParallelSTLVector.BlockSet |
