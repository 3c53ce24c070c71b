/** `BoundaryAlignedRemesher`: the object that owns the working mesh `bm`
    (and, in edit mode, the untouched rest of the object `bm1`), the
    boundary guidance built once from the working mesh, and the surface it
    reprojects onto; and the operations that drive the remeshing. */
module Remeshing {
  import opened Wrappers
  import opened Geometry
  import opened MeshModel
  import opened Indices
  import opened BoundaryField
  import opened EdgeLengthSelection
  import opened RegionSplit
  import opened Ranking
  import opened Alignment

  /** The rule `remesh` hands to `align_verts` (lines 180-183). */
  function RuleFor(quads: bool): (r: seq<int>)
    ensures |r| == 4
    ensures forall k :: 0 <= k < |r| ==> -4 <= r[k] < 4
  {
    if quads then QuadRule else TriRule
  }

  /** Both rules pick four neighbours; for quads the two most parallel and
      the two most perpendicular ones, for triangles the four most
      perpendicular ones. */
  lemma RuleForPicks<T>(quads: bool, best: seq<T>)
    requires |best| >= 4
    ensures |Picks(best, RuleFor(quads))| == 4
    ensures quads ==> Picks(best, RuleFor(quads)) == [best[|best| - 1], best[|best| - 2], best[0], best[1]]
    ensures !quads ==> Picks(best, RuleFor(quads)) == best[..4]
  {
    if quads {
      QuadRulePicks(best);
    } else {
      TriRulePicks(best);
    }
  }

  /** The working mesh of lines 43-47: the vertices with no selected face
      removed. */
  function WorkingRegion(ops: MeshOps, obj: Mesh): Mesh {
    ops.removeVerts(obj, OutsideSelection(obj))
  }

  /** The copy of lines 49-57: the vertices whose faces are all selected
      removed, then the selected faces that remain. */
  function RestRegion(ops: MeshOps, obj: Mesh): Mesh {
    var rest := ops.removeVerts(obj, InsideSelection(obj));
    ops.removeFaces(rest, SelectedFaces(rest))
  }

  /** The working mesh after `enforce_edge_length` (lines 89-132). */
  function Enforced(ops: MeshOps, num: Numerics, m: Mesh, edgeLength: real, bias: real): Mesh {
    var split := ops.triangulate(ops.subdivideEdges(m, LongEdges(m, num, UpperLength(edgeLength, bias))));
    var dissolved := ops.triangulate(ops.dissolveVerts(split, DissolveVerts(split)));
    ops.beautifyFill(ops.collapse(dissolved, Collapse(dissolved, num, LowerLength(edgeLength, bias))))
  }

  /** The copy after `enforce_edge_length` in edit mode (lines 101-107). */
  function EnforcedRest(ops: MeshOps, num: Numerics, m: Mesh, edgeLength: real, bias: real): Mesh {
    ops.subdivideEdges(m, LongSelectedEdges(m, num, UpperLength(edgeLength, bias)))
  }

  /** The mesh after lines 195-198. */
  function AllSelected(m: Mesh): Mesh {
    m.(verts := seq(|m.verts|, v requires 0 <= v < |m.verts| => m.verts[v].(select := true)),
       faces := seq(|m.faces|, f requires 0 <= f < |m.faces| => m.faces[f].(select := true)))
  }

  /** Selecting everything marks every vertex and face and changes nothing
      else: positions, links and edges stay. */
  lemma AllSelectedMarksEverything(m: Mesh)
    ensures |AllSelected(m).verts| == |m.verts| && |AllSelected(m).faces| == |m.faces|
    ensures AllSelected(m).edges == m.edges
    ensures forall v :: 0 <= v < |m.verts| ==>
      AllSelected(m).verts[v].select && AllSelected(m).verts[v].co == m.verts[v].co &&
      AllSelected(m).verts[v].linkEdges == m.verts[v].linkEdges
    ensures forall f :: 0 <= f < |m.faces| ==>
      AllSelected(m).faces[f].select && AllSelected(m).faces[f].verts == m.faces[f].verts
  {
  }

  /** What one remeshing run holds between the steps: the working mesh,
      the copy, and the exception that stopped the run, if any. */
  datatype State = State(bm: Mesh, bm1: Option<Mesh>, error: Option<RemeshError>)

  /** `k` rounds of the loop of lines 185-188 from `s`; an exception ends
      the run. */
  function Rounds(round: State -> State, s: State, k: nat): State
    decreases k
  {
    if k == 0 || s.error.Some? then s else Rounds(round, round(s), k - 1)
  }

  /** `trace` is a run of rounds: every state after the first is the round
      of the one before it, which raised nothing. */
  ghost predicate IsRun(round: State -> State, trace: seq<State>) {
    forall j :: 0 <= j < |trace| - 1 ==> trace[j].error.None? && trace[j + 1] == round(trace[j])
  }

  /** A run that has done `k` rounds, or stopped early on an exception,
      ends where `Rounds` says. */
  lemma {:induction false} RunIsRounds(round: State -> State, trace: seq<State>, k: nat)
    requires |trace| > 0 && IsRun(round, trace)
    requires |trace| - 1 == k || (|trace| - 1 < k && trace[|trace| - 1].error.Some?)
    ensures Rounds(round, trace[0], k) == trace[|trace| - 1]
  {
    if |trace| > 1 {
      var rest := trace[1..];
      assert IsRun(round, rest) by {
        forall j | 0 <= j < |rest| - 1 ensures rest[j].error.None? && rest[j + 1] == round(rest[j]) {
          assert rest[j] == trace[j + 1] && rest[j + 1] == trace[j + 2];
        }
      }
      RunIsRounds(round, rest, k - 1);
      assert trace[1] == round(trace[0]);
    }
  }

  /** A run extended by the round of its last state. */
  lemma RunSnoc(round: State -> State, trace: seq<State>, next: State)
    requires |trace| > 0 && IsRun(round, trace)
    requires trace[|trace| - 1].error.None? && next == round(trace[|trace| - 1])
    ensures IsRun(round, trace + [next])
  {
    var t := trace + [next];
    forall j | 0 <= j < |t| - 1 ensures t[j].error.None? && t[j + 1] == round(t[j]) {
      if j < |trace| - 1 {
        assert t[j] == trace[j] && t[j + 1] == trace[j + 1];
      }
    }
  }

  class BoundaryAlignedRemesher {
    const editMode: bool
    const ops: MeshOps
    const num: Numerics
    /** `self.bvh.find_nearest(co)`'s location, on the working mesh as built. */
    const bvh: Vec3 -> Option<Vec3>
    const boundaryData: seq<BoundarySample>
    const boundaryKdTree: seq<KdItem>
    var bm: Mesh
    var bm1: Option<Mesh>

    ghost predicate Valid()
      reads this
    {
      IndexesSamples(boundaryData, boundaryKdTree) && (bm1.Some? <==> editMode)
    }

    /** Lines 25-79. `obj` is the object's mesh as `from_mesh` reads it and
        `bvhOf` builds the nearest-point query over a mesh. */
    constructor (obj: Mesh, editMode: bool, ops: MeshOps, num: Numerics, bvhOf: Mesh -> (Vec3 -> Option<Vec3>))
      ensures Valid()
      ensures this.editMode == editMode && this.ops == ops && this.num == num
      ensures bm == (if editMode then WorkingRegion(ops, obj) else obj)
      ensures bm1 == (if editMode then Some(RestRegion(ops, obj)) else None)
      ensures bvh == bvhOf(bm)
      ensures boundaryData == BoundaryData(bm, num)
    {
      var work := obj;
      var rest: Option<Mesh> := None;
      if editMode {
        var copy := obj;
        var remove := SelectOutsideSelection(work);
        work := ops.removeVerts(work, remove);
        var remove1 := SelectInsideSelection(copy);
        copy := ops.removeVerts(copy, remove1);
        var faces := SelectSelectedFaces(copy);
        copy := ops.removeFaces(copy, faces);
        rest := Some(copy);
      }
      var data := BuildBoundaryData(work, num);
      var tree := BuildKdTree(data);
      this.editMode := editMode;
      this.ops := ops;
      this.num := num;
      bm := work;
      bm1 := rest;
      bvh := bvhOf(work);
      boundaryData := data;
      boundaryKdTree := tree;
    }

    /** Lines 87-132. */
    method EnforceEdgeLength(edgeLength: real, bias: real)
      requires Valid()
      modifies this
      ensures Valid()
      ensures bm == Enforced(ops, num, old(bm), edgeLength, bias)
      ensures bm1 == if editMode then Some(EnforcedRest(ops, num, old(bm1).value, edgeLength, bias)) else old(bm1)
    {
      var upperLength := UpperLength(edgeLength, bias);
      var lowerLength := LowerLength(edgeLength, bias);

      var subdivide := SelectLongEdges(bm, num, upperLength);
      bm := ops.subdivideEdges(bm, subdivide);
      bm := ops.triangulate(bm);

      if editMode {
        var rest := bm1.value;
        var subdivide1 := SelectLongSelectedEdges(rest, num, upperLength);
        bm1 := Some(ops.subdivideEdges(rest, subdivide1));
      }

      var dissolveVerts := SelectDissolveVerts(bm);
      bm := ops.dissolveVerts(bm, dissolveVerts);
      bm := ops.triangulate(bm);

      var collapse := SelectCollapse(bm, num, lowerLength);
      bm := ops.collapse(bm, collapse);
      bm := ops.beautifyFill(bm);
    }

    /** Lines 165-172. */
    method Reproject()
      requires Valid()
      modifies this
      ensures Valid()
      ensures bm == Reprojected(bvh, old(bm))
      ensures bm1 == old(bm1)
    {
      bm := ReprojectEach(bvh, bm);
    }

    /** Lines 134-163. An exception raised at a vertex (no boundary to
        align to, or a vertex without edges under a non-empty rule) ends
        the call with the earlier vertices already moved and without the
        reprojection. */
    method AlignVerts(rule: seq<int>) returns (err: Option<RemeshError>)
      requires Valid()
      modifies this
      ensures Valid()
      ensures var p := AlignPass(num, boundaryData, boundaryKdTree, rule, old(bm));
        err == p.error && bm == if p.error.Some? then p.mesh else Reprojected(bvh, p.mesh)
      ensures bm1 == old(bm1)
    {
      var p := AlignEach(AlignStep(num, boundaryData, boundaryKdTree, rule), bm);
      bm := p.mesh;
      if p.error.Some? {
        return p.error;
      }
      Reproject();
      return None;
    }

    /** One round of the loop of lines 185-188. */
    ghost function Round(rule: seq<int>, edgeLength: real, s: State): (r: State)
      requires IndexesSamples(boundaryData, boundaryKdTree) && (s.bm1.Some? <==> editMode)
      ensures r.bm1.Some? <==> editMode
    {
      var enforced := Enforced(ops, num, s.bm, edgeLength, DefaultBias);
      var rest := if editMode then Some(EnforcedRest(ops, num, s.bm1.value, edgeLength, DefaultBias)) else s.bm1;
      var p := AlignPass(num, boundaryData, boundaryKdTree, rule, enforced);
      if p.error.Some? then State(p.mesh, rest, p.error)
      else State(Reprojected(bvh, Reprojected(bvh, p.mesh)), rest, None)
    }

    /** The body of the loop of lines 185-188. */
    method RemeshRound(rule: seq<int>, edgeLength: real) returns (err: Option<RemeshError>)
      requires Valid()
      modifies this
      ensures Valid()
      ensures State(bm, bm1, err) == RoundStep(rule, edgeLength)(State(old(bm), old(bm1), None))
    {
      EnforceEdgeLength(edgeLength, DefaultBias);
      err := AlignVerts(rule);
      if err.None? {
        Reproject();
      }
    }

    /** A round as a step of `Rounds`. */
    ghost function RoundStep(rule: seq<int>, edgeLength: real): State -> State
      requires IndexesSamples(boundaryData, boundaryKdTree)
    {
      (s: State) => if s.bm1.Some? <==> editMode then Round(rule, edgeLength, s) else s
    }

    /** What `remesh` leaves: `iterations` rounds (none when it is not
        positive), then, unless a round raised, the quad join and the
        selection of everything. */
    ghost function Remeshed(edgeLength: real, iterations: int, quads: bool, s: State): (r: State)
      requires IndexesSamples(boundaryData, boundaryKdTree)
    {
      var r := Rounds(RoundStep(RuleFor(quads), edgeLength), s, if iterations < 0 then 0 else iterations);
      if r.error.Some? then r
      else r.(bm := AllSelected(if quads then ops.joinTriangles(r.bm) else r.bm))
    }

    /** Lines 174-198. */
    method Remesh(edgeLength: real, iterations: int, quads: bool) returns (err: Option<RemeshError>)
      requires Valid()
      modifies this
      ensures Valid()
      ensures State(bm, bm1, err) == Remeshed(edgeLength, iterations, quads, State(old(bm), old(bm1), None))
    {
      var rule := RuleFor(quads);
      ghost var s0 := State(bm, bm1, None);
      ghost var step := RoundStep(rule, edgeLength);
      var n := if iterations < 0 then 0 else iterations;
      ghost var trace := [s0];
      err := None;
      for i := 0 to n
        invariant Valid() && err == None
        invariant |trace| == i + 1 && trace[0] == s0 && trace[i] == State(bm, bm1, None) && IsRun(step, trace)
      {
        err := RemeshRound(rule, edgeLength);
        RunSnoc(step, trace, State(bm, bm1, err));
        trace := trace + [State(bm, bm1, err)];
        if err.Some? {
          RunIsRounds(step, trace, n);
          return;
        }
      }
      RunIsRounds(step, trace, n);
      if quads {
        bm := ops.joinTriangles(bm);
      }
      SelectAll();
    }

    /** Lines 195-198. */
    method SelectAll()
      modifies this
      ensures bm == AllSelected(old(bm))
      ensures bm1 == old(bm1)
    {
      var v := 0;
      while v < |bm.verts|
        invariant v <= |bm.verts| == |old(bm).verts|
        invariant bm.edges == old(bm).edges && bm.faces == old(bm).faces
        invariant forall w :: 0 <= w < |bm.verts| ==>
          bm.verts[w] == if w < v then old(bm).verts[w].(select := true) else old(bm).verts[w]
        invariant bm1 == old(bm1)
      {
        bm := bm.(verts := bm.verts[v := bm.verts[v].(select := true)]);
        v := v + 1;
      }
      var f := 0;
      while f < |bm.faces|
        invariant f <= |bm.faces| == |old(bm).faces|
        invariant bm.edges == old(bm).edges && bm.verts == AllSelected(old(bm)).verts
        invariant forall g :: 0 <= g < |bm.faces| ==>
          bm.faces[g] == if g < f then old(bm).faces[g].(select := true) else old(bm).faces[g]
        invariant bm1 == old(bm1)
      {
        bm := bm.(faces := bm.faces[f := bm.faces[f].(select := true)]);
        f := f + 1;
      }
    }
  }
}
