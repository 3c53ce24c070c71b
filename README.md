# Boundary-aligned remesh, modelled in Dafny

This project models the Blender add-on "Boundary Aligned Remesh"
(`boundary_alinged_remesh.py`, class `BoundaryAlignedRemesher`). The add-on
remeshes a surface into roughly isotropic polygons using only bmesh
operators. It repeats a round a fixed number of times, and each round has
three steps:

- **Enforce the edge length.** It subdivides edges that are too long,
  dissolves low-valence vertices, and collapses short edges greedily so
  that no two collapsed edges share a vertex.
- **Align vertices.** Each interior vertex moves towards the average of
  itself and a few neighbours. The neighbours are picked from a ranking by
  how their edge lies relative to the direction of the nearest boundary
  edge. The move is restricted to the vertex's tangent plane.
- **Reproject.** Each interior vertex snaps back onto the original surface.

In edit mode only the selected part is remeshed. The rest is kept in a
second mesh (`bm1`), and the long selected edges of that second mesh are
subdivided in step with the working mesh.

The model is split into these modules:

- `Geometry`: vectors. Every floating-point vector routine is a parameter
  (`Numerics`), and the exact-arithmetic facts are proved under `Exact`.
- `MeshModel`: the mesh as a value, with vertices, edges and faces
  addressed by index, and the bmesh operators as opaque functions
  (`MeshOps`).
- `RegionSplit`: the edit-mode split done by the constructor.
- `BoundaryField`: the boundary samples, the KD index over them, and
  `nearest_boundary_vector`.
- `EdgeLengthSelection`: the thresholds and the three candidate lists of
  `enforce_edge_length`.
- `Ranking`: Python's stable `sorted`, as an insertion order on positions,
  and the rule picks `best[i % le]`.
- `Alignment`: `align_verts` and `reproject`, as passes over the vertices
  in order.
- `Remeshing`: the class `BoundaryAlignedRemesher`, with fields `bm` and
  `bm1` that its methods update, and `remesh`'s loop.

Each imperative loop of the source is a method, except the three removal
loops of lines 46-47, 52-53 and 56-57, which hand a whole list to one
removal (`MeshOps.removeVerts`, `MeshOps.removeFaces`). Each method is
proved against a specification function, and the lemmas state that
function's properties.

## Model

| member | source | states |
|---|---|---|
| Geometry.Abs | boundary_alinged_remesh.py:153 | the absolute value is non-negative and equals the value or its negation |
| Geometry.MidpointHalfway | boundary_alinged_remesh.py:69 | with exact arithmetic the midpoint `(a + b) / 2` is as far from `a` as `b` is from it |
| Geometry.TangentialIsOrthogonal | boundary_alinged_remesh.py:160 | with exact arithmetic and a unit normal, `d - d.dot(n) * n` has no component along `n` |
| Indices.FilterExact | boundary_alinged_remesh.py:93-96 | the filtered index list is strictly increasing and holds exactly the indices below `n` that satisfy the predicate |
| MeshModel.OtherVert | boundary_alinged_remesh.py:151 | `other_vert` returns an endpoint of the edge, and returns the vertex itself only for a loop edge |
| MeshModel.MoveVert | boundary_alinged_remesh.py:161 | assigning `vert.co` changes that vertex's position and nothing else in the mesh |
| RegionSplit.SelectOutsideSelection | boundary_alinged_remesh.py:43-45 | `remove` lists, in vertex order, exactly the vertices none of whose linked faces is selected |
| RegionSplit.SelectInsideSelection | boundary_alinged_remesh.py:49-51 | `remove1` lists, in vertex order, exactly the vertices all of whose linked faces are selected |
| RegionSplit.SelectSelectedFaces | boundary_alinged_remesh.py:55 | the face list holds exactly the selected faces, in face order |
| RegionSplit.FacelessVertexLeavesBoth | boundary_alinged_remesh.py:44-50 | a vertex with no faces is removed from both meshes, because `all` of nothing is true |
| RegionSplit.KeptVertices | boundary_alinged_remesh.py:43-53 | the working mesh keeps a vertex if and only if one of its faces is selected; the copy keeps it if and only if one of its faces is not |
| RegionSplit.SplitCoversFacedVertices | boundary_alinged_remesh.py:43-53 | a vertex with a face survives in at least one mesh, and in both exactly when it has both a selected and an unselected face |
| BoundaryField.SampleOf | boundary_alinged_remesh.py:68-69 | the sample of one boundary edge: `center`, the midpoint of its endpoints (halfway between them by `Geometry.MidpointHalfway`), and `vec`, the normalised `v0 - v1` |
| BoundaryField.BoundaryDataUpToMatches | boundary_alinged_remesh.py:66-71 | after any prefix of edges, entry `i` of `boundary_data` is the (midpoint, normalised direction) sample of the `i`-th boundary edge |
| BoundaryField.BoundaryDataPerEdge | boundary_alinged_remesh.py:63-71 | `boundary_data` has one entry per boundary edge, in edge order, and nothing else |
| BoundaryField.BuildBoundaryData | boundary_alinged_remesh.py:63-71 | the loop builds exactly `BoundaryData`, the per-boundary-edge table |
| BoundaryField.BuildKdTree | boundary_alinged_remesh.py:74-79 | the KD tree stores the centre of entry `i` with payload `i`, for every entry and no more |
| BoundaryField.KdFind | boundary_alinged_remesh.py:83 | `find` returns nothing exactly when the tree is empty; otherwise it returns a stored point no farther from the query than any other |
| BoundaryField.NearestBoundaryVector | boundary_alinged_remesh.py:81-85 | fails with `NoBoundary` if and only if the table is empty; otherwise it returns the direction of an entry whose centre is nearest to the location |
| EdgeLengthSelection.UpperLength | boundary_alinged_remesh.py:89 | `upper_length = edge_length + edge_length * bias`, no shorter than the target for non-negative inputs |
| EdgeLengthSelection.LowerLength | boundary_alinged_remesh.py:90 | `lower_length = edge_length - edge_length * bias`, between zero and the target for a bias in [0, 1] |
| EdgeLengthSelection.ThresholdsBracket | boundary_alinged_remesh.py:89-90 | the two thresholds lie symmetrically around the target length and bracket it (strictly when bias and length are positive) |
| EdgeLengthSelection.SelectLongEdges | boundary_alinged_remesh.py:93-96 | `subdivide` lists, in edge order, exactly the edges longer than `upper_length` |
| EdgeLengthSelection.SelectLongSelectedEdges | boundary_alinged_remesh.py:102-105 | the copy's `subdivide` lists, in edge order, exactly the selected edges longer than `upper_length` |
| EdgeLengthSelection.SelectDissolveVerts | boundary_alinged_remesh.py:110-114 | `dissolve_verts` lists, in vertex order, exactly the non-boundary vertices with fewer than 5 edges, so no boundary vertex is dissolved |
| EdgeLengthSelection.CollapseUpTo | boundary_alinged_remesh.py:123-129 | after `n` edges, every chosen edge index is below `n` |
| EdgeLengthSelection.CollapseUpToChosen | boundary_alinged_remesh.py:123-128 | every chosen edge is shorter than `lower_length` and not on the boundary, and the choices are in edge order |
| EdgeLengthSelection.EndpointsMember | boundary_alinged_remesh.py:125 | a vertex is an endpoint of a list of edges if and only if one of the listed edges touches it |
| EdgeLengthSelection.CollapseUpToLock | boundary_alinged_remesh.py:120-129 | `lock_verts` is always the boundary vertices plus the endpoints of the chosen edges |
| EdgeLengthSelection.DisjointSnoc | boundary_alinged_remesh.py:126-128 | appending an edge with no locked endpoint keeps the chosen edges pairwise vertex-disjoint |
| EdgeLengthSelection.CollapseUpToDisjoint | boundary_alinged_remesh.py:119-129 | no two collapsed edges share a vertex ("never collapse two chained edges") |
| EdgeLengthSelection.CollapseDisjointStep | boundary_alinged_remesh.py:123-129 | one step of the loop preserves pairwise disjointness |
| EdgeLengthSelection.CollapseUpToAvoids | boundary_alinged_remesh.py:120-127 | no collapsed edge touches an initially locked (boundary) vertex |
| EdgeLengthSelection.GreedyTake | boundary_alinged_remesh.py:128-129 | choosing the current edge keeps the greedy property |
| EdgeLengthSelection.GreedySkip | boundary_alinged_remesh.py:126-127 | skipping a locked or ineligible edge keeps the greedy property |
| EdgeLengthSelection.CollapseUpToGreedy | boundary_alinged_remesh.py:123-129 | each eligible edge left out touches a boundary vertex or an earlier chosen edge |
| EdgeLengthSelection.CollapseGreedyStep | boundary_alinged_remesh.py:123-129 | one step of the loop preserves the greedy property |
| EdgeLengthSelection.SelectCollapse | boundary_alinged_remesh.py:119-129 | `collapse` is in edge order; every edge in it is short and interior; the edges are pairwise vertex-disjoint and touch no boundary vertex; and the choice is greedy |
| Ranking.Insert | boundary_alinged_remesh.py:152-153 | insertion into a ranked list lengthens it by one |
| Ranking.InsertElements | boundary_alinged_remesh.py:152-153 | insertion adds the new position, keeps every old one, and adds nothing else |
| Ranking.StableOrderUpTo | boundary_alinged_remesh.py:152-153 | the ranking of the first `n` positions has length `n` and holds only positions below `n` |
| Ranking.BeforeTotal | boundary_alinged_remesh.py:152-153 | for distinct positions, exactly one sorts before the other |
| Ranking.InsertSorted | boundary_alinged_remesh.py:152-153 | insertion into a stably sorted list keeps it stably sorted |
| Ranking.InsertSortedHead | boundary_alinged_remesh.py:152-153 | a sorted list's head precedes everything inserted after it |
| Ranking.StableOrderUpToSorted | boundary_alinged_remesh.py:152-153 | the ranking of a prefix is stably sorted |
| Ranking.StableOrderUpToComplete | boundary_alinged_remesh.py:152-153 | the ranking of a prefix lists every position of that prefix |
| Ranking.StableOrderIsStableSort | boundary_alinged_remesh.py:152-153 | `sorted` is a permutation of the positions, ordered by ascending key, with equal keys kept in input order; the first key is the least and the last the greatest |
| Ranking.Permute | boundary_alinged_remesh.py:152 | reordering by a list of positions yields one item per position |
| Ranking.PyMod | boundary_alinged_remesh.py:157 | Python's `i % le` with `le > 0` lies in `[0, le)` |
| Ranking.Picks | boundary_alinged_remesh.py:156-157 | the rule picks one ranked neighbour per rule entry |
| Ranking.NegativeEntriesCountFromEnd | boundary_alinged_remesh.py:157 | a negative entry `i >= -le` picks index `le + i`, counting from the end |
| Ranking.SmallEntriesCountFromStart | boundary_alinged_remesh.py:157 | an entry in `[0, le)` picks that index |
| Ranking.QuadRulePicks | boundary_alinged_remesh.py:181 | with at least 4 neighbours, `(-1, -2, 0, 1)` picks the two last-ranked and the two first-ranked |
| Ranking.TriRulePicks | boundary_alinged_remesh.py:183 | with at least 4 neighbours, `(0, 1, 2, 3)` picks the first four ranked |
| Ranking.DefaultRulePicks | boundary_alinged_remesh.py:134 | with at least 4 neighbours, the default rule `(-1, -2, -3, -4)` picks the four last-ranked, last first |
| Alignment.NeighbourLocations | boundary_alinged_remesh.py:151 | one neighbour location per link edge |
| Alignment.AlignKey | boundary_alinged_remesh.py:153 | the sort key `abs((n_loc - vert.co).normalized().dot(vec))` of one neighbour, never negative |
| Alignment.Keys | boundary_alinged_remesh.py:153 | one sort key per neighbour |
| Alignment.BestLocations | boundary_alinged_remesh.py:152-153 | the ranking has one entry per neighbour |
| Alignment.BestLocationsRanked | boundary_alinged_remesh.py:152-153 | `best_locations` contains every neighbour and nothing else, in ascending order of the key `abs(cos)` |
| Alignment.Accumulate | boundary_alinged_remesh.py:154-157 | `co` after the `+=` loop: `vert.co` followed by the picks, added left to right |
| Alignment.AccumulateIsSum | boundary_alinged_remesh.py:154-157 | with exact arithmetic the `+=` loop yields `vert.co` plus the sum of the picks |
| Alignment.SumCoincident | boundary_alinged_remesh.py:156-157 | the exact sum of `n` picks that all equal one point is that point scaled by `n` |
| Alignment.Relaxed | boundary_alinged_remesh.py:158-161 | the new position: the average of `vert.co` and its picks, as a displacement projected onto the tangent plane and added to `vert.co` |
| Alignment.AlignedPosition | boundary_alinged_remesh.py:154-161 | the accumulation loop computes `Relaxed`: the sum of `vert.co` and the picks, divided by `len(rule) + 1`, as a tangential displacement added to `vert.co` |
| Alignment.AccumulateCoincident | boundary_alinged_remesh.py:154-157 | with exact arithmetic, when every pick equals the vertex, the sum equals `len(rule) + 1` times the vertex |
| Alignment.AverageOfCoincidentPoints | boundary_alinged_remesh.py:154-161 | the divisor `len(rule) + 1` counts the vertex itself: a vertex whose picks all coincide with it does not move |
| Alignment.RelaxedIsTangential | boundary_alinged_remesh.py:159-161 | with exact arithmetic and a unit normal, the displacement is orthogonal to the normal |
| Alignment.NewPosition | boundary_alinged_remesh.py:150-161 | a vertex's update fails if and only if the boundary table is empty (`NoBoundary`, checked first) or the vertex has no edges under a non-empty rule (`ZeroValence`) |
| Alignment.AlignVertex | boundary_alinged_remesh.py:150-161 | the per-vertex statements compute exactly `NewPosition`, including its error cases |
| Alignment.PassUpTo | boundary_alinged_remesh.py:141-161 | the pass keeps the vertex count |
| Alignment.AlignPass | boundary_alinged_remesh.py:141-161 | the whole vertex loop of `align_verts`, as `PassUpTo` over every vertex with the per-vertex update `NewPosition` |
| Alignment.PassUpToKeepsBoundary | boundary_alinged_remesh.py:141-142 | the pass changes only positions; boundary vertices and vertices not yet reached keep their positions |
| Alignment.PassUpToStops | boundary_alinged_remesh.py:141-161 | once an exception is raised, the rest of the pass changes nothing |
| Alignment.AlignEach | boundary_alinged_remesh.py:141-161 | the vertex loop computes exactly `PassUpTo` over all vertices: in order, skipping the boundary, and stopping at the first exception |
| Alignment.NoBoundaryFailsFirst | boundary_alinged_remesh.py:83-84 | with an empty boundary table no vertex moves, and the pass fails if and only if there is a non-boundary vertex |
| Alignment.ReprojectedAt | boundary_alinged_remesh.py:168-172 | where `reproject` puts one vertex: a boundary vertex stays, another goes to the query's location when there is one |
| Alignment.ReprojectUpTo | boundary_alinged_remesh.py:167-172 | reprojection changes only vertex positions |
| Alignment.ReprojectEach | boundary_alinged_remesh.py:167-172 | the vertex loop computes exactly `Reprojected`: boundary vertices are skipped, and the others are moved when the query returns a location |
| Alignment.ReprojectUpToPointwise | boundary_alinged_remesh.py:167-172 | after `n` vertices, each reached vertex sits at `ReprojectedAt` and the others are unchanged |
| Alignment.ReprojectMoves | boundary_alinged_remesh.py:165-172 | boundary vertices never move; another vertex is assigned the location exactly when the query returns one |
| Alignment.ReprojectIdempotent | boundary_alinged_remesh.py:163-188 | when the surface query is a projection, the second `reproject` of a round (line 188 after line 163) changes nothing |
| Remeshing.RuleFor | boundary_alinged_remesh.py:180-183 | the rule `(-1, -2, 0, 1)` for quads and `(0, 1, 2, 3)` otherwise: four entries, each a valid index into a ranking of four or more |
| Remeshing.WorkingRegion | boundary_alinged_remesh.py:43-47 | the working mesh in edit mode: the object mesh without the vertices none of whose faces is selected |
| Remeshing.RestRegion | boundary_alinged_remesh.py:49-57 | the kept copy in edit mode: the object mesh without the vertices all of whose faces are selected, then without its selected faces |
| Remeshing.Enforced | boundary_alinged_remesh.py:89-132 | the working mesh after `enforce_edge_length`: subdivide the long edges, triangulate, dissolve the low-valence vertices, triangulate, collapse the chosen short edges, beautify |
| Remeshing.EnforcedRest | boundary_alinged_remesh.py:101-107 | the kept copy after `enforce_edge_length` in edit mode: its long selected edges subdivided |
| Remeshing.AllSelected | boundary_alinged_remesh.py:195-198 | the mesh with every vertex and face selected |
| Remeshing.Rounds | boundary_alinged_remesh.py:185-188 | `k` rounds of the loop, where an exception ends the run |
| Remeshing.RuleForPicks | boundary_alinged_remesh.py:180-183 | the quad rule averages the two most parallel and the two most perpendicular neighbours; the triangle rule averages the four most perpendicular |
| Remeshing.AllSelectedMarksEverything | boundary_alinged_remesh.py:195-198 | every vertex and face is selected, and positions, links and edges are unchanged |
| Remeshing.RunIsRounds | boundary_alinged_remesh.py:185-188 | a run of `k` rounds, or a shorter run that ends in an exception, ends in the state `Rounds` gives |
| Remeshing.RunSnoc | boundary_alinged_remesh.py:185-188 | appending the next round to an exception-free run gives a run |
| Remeshing.BoundaryAlignedRemesher.constructor | boundary_alinged_remesh.py:25-79 | in edit mode `bm` is the selected region and `bm1` the rest minus its selected faces; otherwise `bm` is the object mesh; the BVH and the boundary table come from `bm`, and the KD tree indexes the table |
| Remeshing.BoundaryAlignedRemesher.EnforceEdgeLength | boundary_alinged_remesh.py:87-132 | `bm` becomes `Enforced`: subdivide, triangulate, dissolve, triangulate, collapse and beautify on the proved candidate lists; in edit mode `bm1` gets its long selected edges subdivided |
| Remeshing.BoundaryAlignedRemesher.Reproject | boundary_alinged_remesh.py:165-172 | `bm` becomes `Reprojected(old bm)`, and `bm1` is unchanged |
| Remeshing.BoundaryAlignedRemesher.AlignVerts | boundary_alinged_remesh.py:134-163 | `bm` becomes the result of the alignment pass, reprojected unless the pass raised; the exception is returned; `bm1` is unchanged |
| Remeshing.BoundaryAlignedRemesher.Round | boundary_alinged_remesh.py:185-188 | a round keeps the edit-mode shape of the state (`bm1` present exactly in edit mode) |
| Remeshing.BoundaryAlignedRemesher.RemeshRound | boundary_alinged_remesh.py:186-188 | one loop body takes the state to its `RoundStep` successor |
| Remeshing.BoundaryAlignedRemesher.Remesh | boundary_alinged_remesh.py:174-198 | the final state is `iterations` rounds (none if the count is not positive), stopping at the first exception; without an exception the triangles are joined when `quads` is set and everything is selected |
| Remeshing.BoundaryAlignedRemesher.SelectAll | boundary_alinged_remesh.py:195-198 | `bm` becomes `AllSelected(old bm)`, and `bm1` is unchanged |

## Left out

- bmesh operators (`subdivide_edges`, `triangulate`, `dissolve_verts`, `collapse`, `beautify_fill`, `join_triangles`, vertex and face removal): their algorithms are part of Blender, not of the add-on. They are opaque functions in `MeshOps`, and the model proves what the add-on hands them.
- The `BVHTree` and the internals of `KDTree`:
  - `find_nearest` is a parameter `Vec3 -> Option<Vec3>` built from the working mesh.
  - `KDTree.find` is modelled as a linear nearest-point search in which the earliest inserted point wins ties. `balance` does not change what the tree holds.
- Floating point:
  - `normalized`, `length`, `dot` and the vector arithmetic are parameters (`Numerics`).
  - Geometric facts (the average over `len(rule) + 1` points, the tangential move) are proved only when those parameters are exact over the reals.
  - Rounding is not modelled.
- Host glue:
  - `bpy.ops.object.mode_set` (lines 31-32, 177-178, 208-209) and `from_mesh` on line 36 are not modelled; the constructor takes the object's mesh as a value.
  - Lines 200-206 (`to_mesh`, the re-read and `remove_doubles`) are not modelled.
  - The `Remesher` operator, `register`/`unregister` and `bl_info` are not modelled.
- Python exceptions:
  - An empty boundary table makes `find` return a `None` index, and `boundary_data[None]` raises; this is modelled as `NoBoundary`.
  - A vertex with no edges under a non-empty rule makes `i % 0` raise; this is modelled as `ZeroValence`.
  - An exception ends `remesh` with the moves made so far kept. Any other exception is not modelled.
- `if location:` (line 171) is modelled as a test for `None`. A `mathutils.Vector` of length 3 is always true.
- The ranking direction:
  - The code sorts ascending by `abs(cos)`. Index 0 is the most perpendicular neighbour and index -1 the most parallel one.
  - The comment at lines 138-140 says the same.
  - The model follows the code.
- Elements are indices, and bmesh references never dangle. `Pos` returns the origin for a vertex index outside the mesh. `LinkedPos` returns the vertex's own position for a link edge that does not touch the vertex or lies outside the mesh. Neither fallback is reached for a well-formed mesh, and mesh well-formedness is not modelled.
- Remeshing.BoundaryAlignedRemesher.AlignVerts: the per-vertex step is passed to the vertex loop (`Alignment.AlignEach`) as a function value. `Alignment.AlignVertex` proves separately that the per-vertex statements compute that step.
- Ranking.StableOrderIsStableSort: the permutation is stated as "same length, and exactly the same positions", not as a multiset equality. For lists of distinct positions the two are equivalent.
