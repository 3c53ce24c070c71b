/** `align_verts` and `reproject`: every non-boundary vertex moves, in
    vertex order, to the average of itself and the neighbours a rule picks
    from the ranking by boundary alignment, restricted to its tangent
    plane; then every non-boundary vertex is snapped to the nearest point
    of the original surface, when there is one. */
module Alignment {
  import opened Wrappers
  import opened Geometry
  import opened MeshModel
  import opened Ranking
  import opened BoundaryField

  /** `edge.other_vert(vert).co` for a link edge `e` of `v`. bmesh's link
      edges always touch their vertex, so the vertex's own position,
      returned otherwise, is never used. */
  function LinkedPos(m: Mesh, v: nat, e: nat): Vec3 {
    if e < |m.edges| && Touches(m.edges[e], v) then Pos(m, OtherVert(m.edges[e], v)) else Pos(m, v)
  }

  /** `neighbor_locations` (line 151), in the order of `vert.link_edges`. */
  function NeighbourLocations(m: Mesh, v: nat): (ns: seq<Vec3>)
    requires v < |m.verts|
    ensures |ns| == |m.verts[v].linkEdges|
  {
    var links := m.verts[v].linkEdges;
    seq(|links|, k requires 0 <= k < |links| => LinkedPos(m, v, links[k]))
  }

  /** The sort key of line 153: `abs((n_loc - vert.co).normalized().dot(vec))`,
      the |cosine| between the edge and the boundary direction. */
  function AlignKey(num: Numerics, co: Vec3, vec: Vec3, n: Vec3): (k: real)
    ensures k >= 0.0
  {
    Abs(num.dot(num.normalized(num.sub(n, co)), vec))
  }

  function Keys(num: Numerics, co: Vec3, vec: Vec3, ns: seq<Vec3>): (keys: seq<real>)
    ensures |keys| == |ns|
  {
    seq(|ns|, k requires 0 <= k < |ns| => AlignKey(num, co, vec, ns[k]))
  }

  /** `best_locations` (lines 152-153). */
  function BestLocations(num: Numerics, co: Vec3, vec: Vec3, ns: seq<Vec3>): (best: seq<Vec3>)
    ensures |best| == |ns|
  {
    Permute(ns, StableOrder(Keys(num, co, vec, ns)))
  }

  /** The ranking lists every neighbour, nothing else, in ascending key
      order: the most perpendicular neighbour first, the most parallel one
      last. */
  lemma BestLocationsRanked(num: Numerics, co: Vec3, vec: Vec3, ns: seq<Vec3>)
    ensures forall k :: 0 <= k < |ns| ==> BestLocations(num, co, vec, ns)[k] in ns
    ensures forall j :: 0 <= j < |ns| ==> ns[j] in BestLocations(num, co, vec, ns)
    ensures forall a, b :: 0 <= a < b < |ns| ==>
      AlignKey(num, co, vec, BestLocations(num, co, vec, ns)[a])
        <= AlignKey(num, co, vec, BestLocations(num, co, vec, ns)[b])
  {
    var keys := Keys(num, co, vec, ns);
    var order := StableOrder(keys);
    var best := BestLocations(num, co, vec, ns);
    StableOrderIsStableSort(keys);
    assert forall k :: 0 <= k < |ns| ==> best[k] == ns[order[k]];
    forall j | 0 <= j < |ns| ensures ns[j] in best {
      assert j in order;
      var k :| 0 <= k < |order| && order[k] == j;
      assert best[k] == ns[j];
    }
  }

  /** The exact sum of a list of vectors. */
  function Sum(vs: seq<Vec3>): Vec3 {
    if vs == [] then Vec3(0.0, 0.0, 0.0) else Add(Sum(vs[..|vs| - 1]), vs[|vs| - 1])
  }

  /** `co` after the `+=` loop of lines 156-157: `vert.co` followed by the
      picked neighbours, added left to right. */
  function Accumulate(num: Numerics, co: Vec3, picks: seq<Vec3>): Vec3 {
    if picks == [] then co else num.add(Accumulate(num, co, picks[..|picks| - 1]), picks[|picks| - 1])
  }

  /** `vert.co + co` after lines 158-160: the average of the vertex and its
      picks, as a displacement projected onto the tangent plane. */
  function Relaxed(num: Numerics, co: Vec3, normal: Vec3, picks: seq<Vec3>): Vec3 {
    var average := num.divide(Accumulate(num, co, picks), (|picks| + 1) as real);
    num.add(co, Tangential(num, num.sub(average, co), normal))
  }

  /** Lines 154-161 for one vertex whose valence `le = |best|` is positive
      or whose rule is empty (otherwise `i % le` divides by zero). */
  method AlignedPosition(num: Numerics, co: Vec3, normal: Vec3, best: seq<Vec3>, rule: seq<int>)
    returns (newCo: Vec3)
    requires |best| > 0 || rule == []
    ensures newCo == Relaxed(num, co, normal, Picks(best, rule))
  {
    var picks := Picks(best, rule);
    var acc := co;
    var le := |best|;
    for k := 0 to |rule|
      invariant acc == Accumulate(num, co, picks[..k])
    {
      assert picks[..k + 1][..k] == picks[..k];
      acc := num.add(acc, best[PyMod(rule[k], le)]);
    }
    assert picks[..|rule|] == picks;
    acc := num.divide(acc, (|rule| + 1) as real);
    acc := num.sub(acc, co);
    acc := num.sub(acc, num.scale(normal, num.dot(acc, normal)));
    newCo := num.add(co, acc);
  }

  /** With exact arithmetic the loop adds up `vert.co` and the picks. */
  lemma {:induction false} AccumulateIsSum(num: Numerics, co: Vec3, picks: seq<Vec3>)
    requires Exact(num)
    ensures Accumulate(num, co, picks) == Add(co, Sum(picks))
  {
    if picks != [] {
      AccumulateIsSum(num, co, picks[..|picks| - 1]);
    }
  }

  /** The exact sum of `n` copies of one vector is that vector scaled by `n`. */
  lemma {:induction false} SumCoincident(co: Vec3, picks: seq<Vec3>)
    requires forall k :: 0 <= k < |picks| ==> picks[k] == co
    ensures Sum(picks) == Scale(co, |picks| as real)
  {
    if picks != [] {
      SumCoincident(co, picks[..|picks| - 1]);
      var n := (|picks| - 1) as real;
      assert co.x * n + co.x == co.x * (n + 1.0);
      assert co.y * n + co.y == co.y * (n + 1.0);
      assert co.z * n + co.z == co.z * (n + 1.0);
    }
  }

  /** With exact arithmetic a vertex whose picks all coincide with it does
      not move: the sum holds `|picks| + 1` points and is divided by
      exactly that many. */
  lemma AccumulateCoincident(num: Numerics, co: Vec3, picks: seq<Vec3>)
    requires Exact(num)
    requires forall k :: 0 <= k < |picks| ==> picks[k] == co
    ensures Accumulate(num, co, picks) == Scale(co, (|picks| + 1) as real)
  {
    AccumulateIsSum(num, co, picks);
    SumCoincident(co, picks);
    var n := |picks| as real;
    assert co.x + co.x * n == co.x * (n + 1.0);
    assert co.y + co.y * n == co.y * (n + 1.0);
    assert co.z + co.z * n == co.z * (n + 1.0);
  }

  /** Scaling by `n` and then by `1 / n` gives the vector back. */
  lemma ScaleBack(co: Vec3, n: real)
    requires n != 0.0
    ensures Scale(Scale(co, n), 1.0 / n) == co
  {
    assert n * (1.0 / n) == 1.0;
    assert co.x * n * (1.0 / n) == co.x * (n * (1.0 / n));
    assert co.y * n * (1.0 / n) == co.y * (n * (1.0 / n));
    assert co.z * n * (1.0 / n) == co.z * (n * (1.0 / n));
  }

  lemma AverageOfCoincidentPoints(num: Numerics, co: Vec3, normal: Vec3, picks: seq<Vec3>)
    requires Exact(num)
    requires forall k :: 0 <= k < |picks| ==> picks[k] == co
    ensures Relaxed(num, co, normal, picks) == co
  {
    var n := (|picks| + 1) as real;
    var zero := Vec3(0.0, 0.0, 0.0);
    AccumulateCoincident(num, co, picks);
    ScaleBack(co, n);
    var average := num.divide(Accumulate(num, co, picks), n);
    assert average == co;
    assert num.sub(average, co) == zero;
    assert num.scale(normal, num.dot(zero, normal)) == zero;
    assert Tangential(num, zero, normal) == zero;
  }

  /** With exact arithmetic and a unit normal the vertex moves within its
      tangent plane (line 160). */
  lemma RelaxedIsTangential(num: Numerics, co: Vec3, normal: Vec3, picks: seq<Vec3>)
    requires Exact(num) && Dot(normal, normal) == 1.0
    ensures Dot(Sub(Relaxed(num, co, normal, picks), co), normal) == 0.0
  {
    var average := num.divide(Accumulate(num, co, picks), (|picks| + 1) as real);
    var t := Tangential(num, num.sub(average, co), normal);
    TangentialIsOrthogonal(num, num.sub(average, co), normal);
    assert Sub(Add(co, t), co) == t;
  }

  /** The new position of non-boundary vertex `v` in mesh `m`, or the
      exception `align_verts` raises there. */
  function NewPosition(num: Numerics, data: seq<BoundarySample>, tree: seq<KdItem>, rule: seq<int>, m: Mesh, v: nat)
    : (r: Result<Vec3, RemeshError>)
    requires v < |m.verts| && IndexesSamples(data, tree)
    ensures r.Failure? <==> data == [] || (m.verts[v].linkEdges == [] && rule != [])
    ensures r.Failure? ==> r.error == if data == [] then NoBoundary else ZeroValence
  {
    var co := m.verts[v].co;
    match NearestBoundaryVector(num, data, tree, co)
    case Failure(e) => Failure(e)
    case Success(vec) =>
      var ns := NeighbourLocations(m, v);
      if ns == [] && rule != [] then Failure(ZeroValence)
      else Success(Relaxed(num, co, m.verts[v].normal, Picks(BestLocations(num, co, vec, ns), rule)))
  }

  /** Lines 150-161 for vertex `v` of `m`: the new position, or the
      exception raised on the way. */
  method AlignVertex(num: Numerics, data: seq<BoundarySample>, tree: seq<KdItem>, rule: seq<int>, m: Mesh, v: nat)
    returns (r: Result<Vec3, RemeshError>)
    requires v < |m.verts| && IndexesSamples(data, tree)
    ensures r == NewPosition(num, data, tree, rule, m, v)
  {
    var vert := m.verts[v];
    var vec := NearestBoundaryVector(num, data, tree, vert.co);
    if vec.Failure? {
      return Failure(vec.error);
    }
    var neighbourLocations := NeighbourLocations(m, v);
    var bestLocations := BestLocations(num, vert.co, vec.value, neighbourLocations);
    var le := |vert.linkEdges|;
    if le == 0 && rule != [] {
      return Failure(ZeroValence);
    }
    var co := AlignedPosition(num, vert.co, vert.normal, bestLocations, rule);
    return Success(co);
  }

  /** Two vertices that differ at most in position. */
  predicate SameShape(a: Vert, b: Vert) {
    a.normal == b.normal && a.isBoundary == b.isBoundary && a.select == b.select &&
    a.linkEdges == b.linkEdges && a.linkFaces == b.linkFaces
  }

  /** Two meshes that differ at most in vertex positions. */
  ghost predicate SameTopology(m: Mesh, m': Mesh) {
    && |m'.verts| == |m.verts| && m'.edges == m.edges && m'.faces == m.faces
    && forall w :: 0 <= w < |m.verts| ==> SameShape(m.verts[w], m'.verts[w])
  }

  /** The mesh after an alignment pass, and the exception that stopped it. */
  datatype Pass = Pass(mesh: Mesh, error: Option<RemeshError>)

  /** The loop of lines 141-161 after its first `n` vertices, starting from
      `m`, where `step` gives a non-boundary vertex's new position or the
      exception raised there. Each vertex sees the positions its
      predecessors were moved to; an exception stops the pass with those
      moves kept. */
  function PassUpTo(step: (Mesh, nat) -> Result<Vec3, RemeshError>, m: Mesh, n: nat): (p: Pass)
    requires n <= |m.verts|
    ensures |p.mesh.verts| == |m.verts|
  {
    if n == 0 then Pass(m, None)
    else
      var p := PassUpTo(step, m, n - 1);
      if p.error.Some? || p.mesh.verts[n - 1].isBoundary then p
      else match step(p.mesh, n - 1)
        case Failure(e) => Pass(p.mesh, Some(e))
        case Success(c) => Pass(MoveVert(p.mesh, n - 1, c), None)
  }

  /** `align_verts`'s update of one vertex. */
  function AlignStep(num: Numerics, data: seq<BoundarySample>, tree: seq<KdItem>, rule: seq<int>)
    : (Mesh, nat) -> Result<Vec3, RemeshError>
    requires IndexesSamples(data, tree)
  {
    (m: Mesh, v: nat) => if v < |m.verts| then NewPosition(num, data, tree, rule, m, v) else Failure(NoBoundary)
  }

  /** The whole loop of lines 141-161. */
  function AlignPass(num: Numerics, data: seq<BoundarySample>, tree: seq<KdItem>, rule: seq<int>, m: Mesh): Pass
    requires IndexesSamples(data, tree)
  {
    PassUpTo(AlignStep(num, data, tree, rule), m, |m.verts|)
  }

  /** The pass moves vertices and changes nothing else; boundary vertices,
      and vertices it has not reached, keep their positions. */
  lemma {:induction false} PassUpToKeepsBoundary(step: (Mesh, nat) -> Result<Vec3, RemeshError>, m: Mesh, n: nat)
    requires n <= |m.verts|
    ensures SameTopology(m, PassUpTo(step, m, n).mesh)
    ensures forall w :: 0 <= w < |m.verts| && (n <= w || m.verts[w].isBoundary) ==>
      PassUpTo(step, m, n).mesh.verts[w].co == m.verts[w].co
  {
    if n > 0 {
      PassUpToKeepsBoundary(step, m, n - 1);
    }
  }

  /** Once an exception is raised the rest of the pass does nothing. */
  lemma {:induction false} PassUpToStops(step: (Mesh, nat) -> Result<Vec3, RemeshError>, m: Mesh, n: nat, n': nat)
    requires n <= n' <= |m.verts|
    requires PassUpTo(step, m, n).error.Some?
    ensures PassUpTo(step, m, n') == PassUpTo(step, m, n)
    decreases n' - n
  {
    if n < n' {
      PassUpToStops(step, m, n, n' - 1);
    }
  }

  /** The loop of lines 141-161 over mesh `m`, where `step` stands for the
      body of lines 150-161 (`AlignStep` in the remesher): vertices are
      visited in order, boundary vertices skipped, each other one moved
      where `step` puts it, and an exception ends the loop. */
  method AlignEach(step: (Mesh, nat) -> Result<Vec3, RemeshError>, m: Mesh) returns (p: Pass)
    ensures p == PassUpTo(step, m, |m.verts|)
  {
    var cur := m;
    var v := 0;
    while v < |cur.verts|
      invariant v <= |cur.verts| == |m.verts|
      invariant PassUpTo(step, m, v) == Pass(cur, None)
    {
      if !cur.verts[v].isBoundary {
        var r := step(cur, v);
        if r.Failure? {
          PassUpToStops(step, m, v + 1, |m.verts|);
          return Pass(cur, Some(r.error));
        }
        cur := MoveVert(cur, v, r.value);
      }
      v := v + 1;
    }
    return Pass(cur, None);
  }

  /** An empty boundary table makes the pass fail at the first non-boundary
      vertex, before any vertex has moved. */
  lemma {:induction false} NoBoundaryFailsFirst(num: Numerics, data: seq<BoundarySample>, tree: seq<KdItem>,
                                                rule: seq<int>, m: Mesh, n: nat)
    requires n <= |m.verts| && IndexesSamples(data, tree) && data == []
    ensures PassUpTo(AlignStep(num, data, tree, rule), m, n).mesh == m
    ensures PassUpTo(AlignStep(num, data, tree, rule), m, n).error.Some? <==>
      exists w :: 0 <= w < n && !m.verts[w].isBoundary
  {
    if n > 0 {
      NoBoundaryFailsFirst(num, data, tree, rule, m, n - 1);
    }
  }

  // ---------------------------------------------------------------- reproject

  /** Where `reproject` puts vertex `v` of `m`: a boundary vertex stays, any
      other goes to the nearest surface point when the query finds one and
      stays otherwise. */
  function ReprojectedAt(bvh: Vec3 -> Option<Vec3>, m: Mesh, v: nat): Vec3
    requires v < |m.verts|
  {
    if m.verts[v].isBoundary then m.verts[v].co
    else match bvh(m.verts[v].co)
      case None => m.verts[v].co
      case Some(location) => location
  }

  /** The loop of lines 167-172 after its first `n` vertices. */
  function ReprojectUpTo(bvh: Vec3 -> Option<Vec3>, m: Mesh, n: nat): (r: Mesh)
    requires n <= |m.verts|
    ensures SameTopology(m, r)
  {
    if n == 0 then m
    else
      var r := ReprojectUpTo(bvh, m, n - 1);
      if r.verts[n - 1].isBoundary then r
      else match bvh(r.verts[n - 1].co)
        case None => r
        case Some(location) => MoveVert(r, n - 1, location)
  }

  function Reprojected(bvh: Vec3 -> Option<Vec3>, m: Mesh): Mesh {
    ReprojectUpTo(bvh, m, |m.verts|)
  }

  /** The loop of lines 167-172 over mesh `m`. */
  method ReprojectEach(bvh: Vec3 -> Option<Vec3>, m: Mesh) returns (r: Mesh)
    ensures r == Reprojected(bvh, m)
  {
    r := m;
    var v := 0;
    while v < |r.verts|
      invariant v <= |r.verts| == |m.verts|
      invariant r == ReprojectUpTo(bvh, m, v)
    {
      if !r.verts[v].isBoundary {
        var location := bvh(r.verts[v].co);
        if location.Some? {
          r := MoveVert(r, v, location.value);
        }
      }
      v := v + 1;
    }
  }

  /** Each vertex is handled on its own: the loop moves the vertices it has
      reached to `ReprojectedAt` and leaves the rest. */
  lemma {:induction false} ReprojectUpToPointwise(bvh: Vec3 -> Option<Vec3>, m: Mesh, n: nat)
    requires n <= |m.verts|
    ensures forall w :: 0 <= w < |m.verts| ==>
      ReprojectUpTo(bvh, m, n).verts[w].co == if w < n then ReprojectedAt(bvh, m, w) else m.verts[w].co
  {
    if n > 0 {
      ReprojectUpToPointwise(bvh, m, n - 1);
    }
  }

  /** The whole loop: boundary vertices keep their positions, and another
      vertex is reassigned exactly when the surface query finds a location. */
  lemma ReprojectMoves(bvh: Vec3 -> Option<Vec3>, m: Mesh)
    ensures SameTopology(m, Reprojected(bvh, m))
    ensures forall w :: 0 <= w < |m.verts| ==>
      Reprojected(bvh, m).verts[w].co == ReprojectedAt(bvh, m, w)
  {
    ReprojectUpToPointwise(bvh, m, |m.verts|);
  }

  /** The nearest-point query maps a surface point to itself. */
  ghost predicate IsProjection(bvh: Vec3 -> Option<Vec3>) {
    forall p, q :: bvh(p) == Some(q) ==> bvh(q) == Some(q)
  }

  /** Reprojecting twice changes nothing more than reprojecting once, when
      the query is a projection onto the surface. */
  lemma ReprojectIdempotent(bvh: Vec3 -> Option<Vec3>, m: Mesh)
    requires IsProjection(bvh)
    ensures Reprojected(bvh, Reprojected(bvh, m)) == Reprojected(bvh, m)
  {
    var once := Reprojected(bvh, m);
    var twice := Reprojected(bvh, once);
    ReprojectMoves(bvh, m);
    ReprojectMoves(bvh, once);
    forall w | 0 <= w < |m.verts| ensures twice.verts[w] == once.verts[w] {
      if !m.verts[w].isBoundary && bvh(m.verts[w].co).Some? {
        assert bvh(once.verts[w].co) == Some(once.verts[w].co);
      }
    }
    assert twice.verts == once.verts;
  }
}
