/** The abstract bmesh the remesher works on. Vertices, edges and faces are
    addressed by their position in the mesh's collections, which is also
    the order in which `bm.verts`, `bm.edges` and `bm.faces` are walked. */
module MeshModel {
  import opened Geometry

  /** A vertex's position, normal, flags and links. `linkEdges` keeps the
      order of `vert.link_edges`, which decides the order of the neighbour
      list and so the tie order of the ranking. */
  datatype Vert = Vert(
    co: Vec3,
    normal: Vec3,
    isBoundary: bool,
    select: bool,
    linkEdges: seq<nat>,
    linkFaces: seq<nat>)

  datatype Edge = Edge(v0: nat, v1: nat, isBoundary: bool, select: bool)

  datatype Face = Face(verts: seq<nat>, select: bool)

  datatype Mesh = Mesh(verts: seq<Vert>, edges: seq<Edge>, faces: seq<Face>)

  predicate Touches(e: Edge, v: nat) {
    e.v0 == v || e.v1 == v
  }

  /** `edge.other_vert(vert)` for a vertex of the edge. */
  function OtherVert(e: Edge, v: nat): (w: nat)
    requires Touches(e, v)
    ensures Touches(e, w)
    ensures w == v ==> e.v0 == e.v1
  {
    if e.v0 == v then e.v1 else e.v0
  }

  /** `set(vert for vert in bm.verts if vert.is_boundary)` */
  function BoundaryVerts(m: Mesh): set<nat> {
    set v | 0 <= v < |m.verts| && m.verts[v].isBoundary
  }

  /** `vert.co`. bmesh's element references never dangle, so the origin
      returned for an index outside the mesh is never used. */
  function Pos(m: Mesh, v: nat): Vec3 {
    if v < |m.verts| then m.verts[v].co else Vec3(0.0, 0.0, 0.0)
  }

  /** `edge.calc_length()`: the length of the vector between its endpoints. */
  function EdgeLength(m: Mesh, num: Numerics, e: nat): real
    requires e < |m.edges|
  {
    num.length(num.sub(Pos(m, m.edges[e].v0), Pos(m, m.edges[e].v1)))
  }

  /** `vert.co = c`: the mesh with one vertex moved. */
  function MoveVert(m: Mesh, v: nat, c: Vec3): (r: Mesh)
    requires v < |m.verts|
    ensures |r.verts| == |m.verts| && r.edges == m.edges && r.faces == m.faces
    ensures forall w :: 0 <= w < |m.verts| ==>
      r.verts[w] == if w == v then m.verts[v].(co := c) else m.verts[w]
  {
    m.(verts := m.verts[v := m.verts[v].(co := c)])
  }

  /** The `bmesh.ops` operators and element removals the remesher hands its
      candidate lists to. Their effect lies outside the add-on, so each is
      an opaque function of the mesh and the candidates. */
  datatype MeshOps = MeshOps(
    removeVerts: (Mesh, seq<nat>) -> Mesh,
    removeFaces: (Mesh, seq<nat>) -> Mesh,
    subdivideEdges: (Mesh, seq<nat>) -> Mesh,
    triangulate: Mesh -> Mesh,
    dissolveVerts: (Mesh, seq<nat>) -> Mesh,
    collapse: (Mesh, seq<nat>) -> Mesh,
    beautifyFill: Mesh -> Mesh,
    joinTriangles: Mesh -> Mesh)
}
