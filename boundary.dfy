/** The boundary guidance field built by the remesher's constructor: one
    sample (centre, direction) per boundary edge, a nearest-sample index
    over the centres, and the lookup `nearest_boundary_vector`. */
module BoundaryField {
  import opened Wrappers
  import opened Geometry
  import opened MeshModel
  import opened Indices

  /** The ways `align_verts` can stop with an exception. */
  datatype RemeshError =
    | NoBoundary   // the index is empty: `find` yields no index and `boundary_data[None]` fails
    | ZeroValence  // a vertex with no edges: `i % 0` divides by zero

  /** An entry `(center, vec)` of `boundary_data`. */
  datatype BoundarySample = BoundarySample(center: Vec3, direction: Vec3)

  /** A point stored in the KD tree with its payload index. */
  datatype KdItem = KdItem(co: Vec3, index: nat)

  /** The sample an edge contributes: its midpoint and its normalised
      direction from the second endpoint to the first (lines 68-69). */
  function SampleOf(m: Mesh, num: Numerics, e: nat): BoundarySample
    requires e < |m.edges|
  {
    var a := Pos(m, m.edges[e].v0);
    var b := Pos(m, m.edges[e].v1);
    BoundarySample(Midpoint(num, a, b), num.normalized(num.sub(a, b)))
  }

  /** The boundary edges among the first `n`, in edge order. */
  function BoundaryEdgesUpTo(m: Mesh, n: nat): seq<nat> {
    Filter(n, (e: nat) => e < |m.edges| && m.edges[e].isBoundary)
  }

  function BoundaryEdges(m: Mesh): seq<nat> {
    BoundaryEdgesUpTo(m, |m.edges|)
  }

  /** `boundary_data` after the first `n` edges of the loop at lines 66-71. */
  function BoundaryDataUpTo(m: Mesh, num: Numerics, n: nat): seq<BoundarySample>
    requires n <= |m.edges|
  {
    if n == 0 then []
    else if m.edges[n - 1].isBoundary then BoundaryDataUpTo(m, num, n - 1) + [SampleOf(m, num, n - 1)]
    else BoundaryDataUpTo(m, num, n - 1)
  }

  function BoundaryData(m: Mesh, num: Numerics): seq<BoundarySample> {
    BoundaryDataUpTo(m, num, |m.edges|)
  }

  /** Entry `i` of `boundary_data` is the sample of the `i`-th boundary edge. */
  lemma {:induction false} BoundaryDataUpToMatches(m: Mesh, num: Numerics, n: nat)
    requires n <= |m.edges|
    ensures |BoundaryDataUpTo(m, num, n)| == |BoundaryEdgesUpTo(m, n)|
    ensures forall i :: 0 <= i < |BoundaryEdgesUpTo(m, n)| ==>
      BoundaryEdgesUpTo(m, n)[i] < |m.edges| &&
      BoundaryDataUpTo(m, num, n)[i] == SampleOf(m, num, BoundaryEdgesUpTo(m, n)[i])
  {
    if n > 0 {
      BoundaryDataUpToMatches(m, num, n - 1);
      FilterExact(n - 1, (e: nat) => e < |m.edges| && m.edges[e].isBoundary);
    }
  }

  /** One sample per boundary edge, in edge order, and nothing else. */
  lemma BoundaryDataPerEdge(m: Mesh, num: Numerics)
    ensures |BoundaryData(m, num)| == |BoundaryEdges(m)|
    ensures Increasing(BoundaryEdges(m))
    ensures forall e: nat :: e in BoundaryEdges(m) <==> e < |m.edges| && m.edges[e].isBoundary
    ensures forall i :: 0 <= i < |BoundaryEdges(m)| ==>
      BoundaryEdges(m)[i] < |m.edges| &&
      BoundaryData(m, num)[i] == SampleOf(m, num, BoundaryEdges(m)[i])
  {
    BoundaryDataUpToMatches(m, num, |m.edges|);
    FilterExact(|m.edges|, (e: nat) => e < |m.edges| && m.edges[e].isBoundary);
  }

  /** The loop of lines 63-71, proved against `BoundaryData`, whose shape
      `BoundaryDataPerEdge` states. */
  method BuildBoundaryData(m: Mesh, num: Numerics) returns (data: seq<BoundarySample>)
    ensures data == BoundaryData(m, num)
  {
    data := [];
    var i := 0;
    while i < |m.edges|
      invariant i <= |m.edges|
      invariant data == BoundaryDataUpTo(m, num, i)
    {
      var edge := m.edges[i];
      if edge.isBoundary {
        var vec := num.normalized(num.sub(Pos(m, edge.v0), Pos(m, edge.v1)));
        var center := Midpoint(num, Pos(m, edge.v0), Pos(m, edge.v1));
        data := data + [BoundarySample(center, vec)];
      }
      i := i + 1;
    }
  }

  /** The KD tree holds the centre of entry `i` with payload `i`. */
  ghost predicate IndexesSamples(data: seq<BoundarySample>, tree: seq<KdItem>) {
    && |tree| == |data|
    && forall i :: 0 <= i < |tree| ==> tree[i] == KdItem(data[i].center, i)
  }

  /** The insertion loop of lines 74-79; `balance` reorganises the tree
      without changing what it holds. */
  method BuildKdTree(data: seq<BoundarySample>) returns (tree: seq<KdItem>)
    ensures IndexesSamples(data, tree)
  {
    tree := [];
    var index := 0;
    while index < |data|
      invariant index <= |data|
      invariant IndexesSamples(data[..index], tree)
    {
      tree := tree + [KdItem(data[index].center, index)];
      index := index + 1;
    }
    assert data[..index] == data;
  }

  /** The distance the KD tree measures between two points. */
  function Distance(num: Numerics, a: Vec3, b: Vec3): real {
    num.length(num.sub(a, b))
  }

  /** `KDTree.find`: a stored point nearest to `q` (the first stored one
      among equally near points), or nothing when the tree is empty. */
  function KdFind(num: Numerics, tree: seq<KdItem>, q: Vec3): (r: Option<KdItem>)
    ensures r.None? <==> tree == []
    ensures r.Some? ==> r.value in tree
    ensures r.Some? ==> forall it :: it in tree ==> Distance(num, r.value.co, q) <= Distance(num, it.co, q)
  {
    if tree == [] then None
    else
      var best := KdFind(num, tree[..|tree| - 1], q);
      var last := tree[|tree| - 1];
      assert tree == tree[..|tree| - 1] + [last];
      if best.Some? && Distance(num, best.value.co, q) <= Distance(num, last.co, q) then best else Some(last)
  }

  /** No centre is nearer to `location` than that of entry `i`. */
  ghost predicate NearestCenter(num: Numerics, data: seq<BoundarySample>, i: nat, location: Vec3)
    requires i < |data|
  {
    forall j :: 0 <= j < |data| ==> Distance(num, data[i].center, location) <= Distance(num, data[j].center, location)
  }

  /** `nearest_boundary_vector` (lines 81-85): the direction of the entry
      whose centre the tree finds nearest to `location`. */
  function NearestBoundaryVector(num: Numerics, data: seq<BoundarySample>, tree: seq<KdItem>, location: Vec3): (r: Result<Vec3, RemeshError>)
    requires IndexesSamples(data, tree)
    ensures r.Failure? <==> data == []
    ensures r.Failure? ==> r.error == NoBoundary
    ensures r.Success? ==> exists i :: 0 <= i < |data| && r.value == data[i].direction && NearestCenter(num, data, i, location)
  {
    match KdFind(num, tree, location)
    case None => Failure(NoBoundary)
    case Some(found) =>
      var i :| 0 <= i < |tree| && tree[i] == found;
      assert forall j :: 0 <= j < |data| ==> tree[j] in tree;
      Success(data[found.index].direction)
  }
}
