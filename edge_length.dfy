/** Candidate selection of `enforce_edge_length`: which edges are split,
    which vertices are dissolved and which edges are collapsed. The
    operators that act on these lists are opaque (`MeshOps`). */
module EdgeLengthSelection {
  import opened Geometry
  import opened MeshModel
  import opened Indices

  /** `enforce_edge_length`'s default `bias`; `remesh` never passes another. */
  const DefaultBias: real := 0.333

  /** A vertex with fewer incident edges than this is dissolved. */
  const MinValence: nat := 5

  /** `upper_length`: no shorter than the target for a non-negative bias. */
  function UpperLength(edgeLength: real, bias: real): (r: real)
    ensures 0.0 <= edgeLength && 0.0 <= bias ==> edgeLength <= r
  {
    edgeLength + edgeLength * bias
  }

  /** `lower_length`: between zero and the target for a bias in [0, 1]. */
  function LowerLength(edgeLength: real, bias: real): (r: real)
    ensures 0.0 <= edgeLength && 0.0 <= bias <= 1.0 ==> 0.0 <= r <= edgeLength
  {
    edgeLength - edgeLength * bias
  }

  /** The band is centred on the target length and, for a non-negative
      bias and length, contains it. */
  lemma ThresholdsBracket(edgeLength: real, bias: real)
    ensures UpperLength(edgeLength, bias) - edgeLength == edgeLength - LowerLength(edgeLength, bias)
    ensures 0.0 <= bias && 0.0 <= edgeLength ==>
      LowerLength(edgeLength, bias) <= edgeLength <= UpperLength(edgeLength, bias)
    ensures 0.0 < bias && 0.0 < edgeLength ==>
      LowerLength(edgeLength, bias) < edgeLength < UpperLength(edgeLength, bias)
  {
    if 0.0 <= bias && 0.0 <= edgeLength {
      assert edgeLength * bias >= 0.0;
    }
    if 0.0 < bias && 0.0 < edgeLength {
      assert edgeLength * bias > 0.0;
    }
  }

  // ---------------------------------------------------------------- subdivide

  /** Edges among the first `n` that are longer than `upper`. */
  function LongEdgesUpTo(m: Mesh, num: Numerics, upper: real, n: nat): seq<nat>
  {
    Filter(n, (e: nat) => e < |m.edges| && EdgeLength(m, num, e) > upper)
  }

  function LongEdges(m: Mesh, num: Numerics, upper: real): seq<nat>
  {
    LongEdgesUpTo(m, num, upper, |m.edges|)
  }

  /** The loop of lines 93-96: every edge longer than the upper bound, in
      edge order, and nothing else. */
  method SelectLongEdges(m: Mesh, num: Numerics, upper: real) returns (subdivide: seq<nat>)
    ensures subdivide == LongEdges(m, num, upper)
    ensures Increasing(subdivide)
    ensures forall e: nat :: e in subdivide <==> e < |m.edges| && EdgeLength(m, num, e) > upper
  {
    subdivide := [];
    var i := 0;
    while i < |m.edges|
      invariant i <= |m.edges|
      invariant subdivide == LongEdgesUpTo(m, num, upper, i)
    {
      if EdgeLength(m, num, i) > upper {
        subdivide := subdivide + [i];
      }
      i := i + 1;
    }
    FilterExact(|m.edges|, (e: nat) => e < |m.edges| && EdgeLength(m, num, e) > upper);
  }

  /** Selected edges among the first `n` that are longer than `upper`. */
  function LongSelectedEdgesUpTo(m: Mesh, num: Numerics, upper: real, n: nat): seq<nat>
  {
    Filter(n, (e: nat) => e < |m.edges| && m.edges[e].select && EdgeLength(m, num, e) > upper)
  }

  function LongSelectedEdges(m: Mesh, num: Numerics, upper: real): seq<nat>
  {
    LongSelectedEdgesUpTo(m, num, upper, |m.edges|)
  }

  /** The loop of lines 102-105 over the untouched remainder: selected edges
      longer than the upper bound, in edge order. */
  method SelectLongSelectedEdges(m: Mesh, num: Numerics, upper: real) returns (subdivide: seq<nat>)
    ensures subdivide == LongSelectedEdges(m, num, upper)
    ensures Increasing(subdivide)
    ensures forall e: nat :: e in subdivide <==>
      e < |m.edges| && m.edges[e].select && EdgeLength(m, num, e) > upper
  {
    subdivide := [];
    var i := 0;
    while i < |m.edges|
      invariant i <= |m.edges|
      invariant subdivide == LongSelectedEdgesUpTo(m, num, upper, i)
    {
      if m.edges[i].select && EdgeLength(m, num, i) > upper {
        subdivide := subdivide + [i];
      }
      i := i + 1;
    }
    FilterExact(|m.edges|, (e: nat) => e < |m.edges| && m.edges[e].select && EdgeLength(m, num, e) > upper);
  }

  // ---------------------------------------------------------------- dissolve

  function DissolveVertsUpTo(m: Mesh, n: nat): seq<nat> {
    Filter(n, (v: nat) => v < |m.verts| && |m.verts[v].linkEdges| < MinValence && !m.verts[v].isBoundary)
  }

  function DissolveVerts(m: Mesh): seq<nat> {
    DissolveVertsUpTo(m, |m.verts|)
  }

  /** The loop of lines 110-114: exactly the non-boundary vertices with fewer
      than five incident edges, in vertex order. */
  method SelectDissolveVerts(m: Mesh) returns (dissolve: seq<nat>)
    ensures dissolve == DissolveVerts(m)
    ensures Increasing(dissolve)
    ensures forall v: nat :: v in dissolve <==>
      v < |m.verts| && |m.verts[v].linkEdges| < MinValence && !m.verts[v].isBoundary
    ensures forall v :: v in dissolve ==> v !in BoundaryVerts(m)
  {
    dissolve := [];
    var i := 0;
    while i < |m.verts|
      invariant i <= |m.verts|
      invariant dissolve == DissolveVertsUpTo(m, i)
    {
      if |m.verts[i].linkEdges| < MinValence {
        if !m.verts[i].isBoundary {
          dissolve := dissolve + [i];
        }
      }
      i := i + 1;
    }
    FilterExact(|m.verts|, (v: nat) => v < |m.verts| && |m.verts[v].linkEdges| < MinValence && !m.verts[v].isBoundary);
  }

  // ---------------------------------------------------------------- collapse

  /** The state of the collapse loop: the edges chosen so far and the
      locked vertices. */
  datatype CollapseState = CollapseState(collapse: seq<nat>, lock: set<nat>)

  /** Short enough to collapse and not on the boundary (line 124). */
  predicate Eligible(m: Mesh, num: Numerics, lower: real, e: nat) {
    e < |m.edges| && EdgeLength(m, num, e) < lower && !m.edges[e].isBoundary
  }

  /** `set(edge.verts) & lock_verts` is not empty. */
  predicate Locked(e: Edge, lock: set<nat>) {
    e.v0 in lock || e.v1 in lock
  }

  /** The collapse loop of lines 120-129 after its first `n` edges, with the
      lock set starting as `init`; the source starts it with the boundary
      vertices (line 119). */
  function CollapseUpTo(m: Mesh, num: Numerics, lower: real, init: set<nat>, n: nat): (s: CollapseState)
    requires n <= |m.edges|
    ensures forall k :: 0 <= k < |s.collapse| ==> s.collapse[k] < n
  {
    if n == 0 then CollapseState([], init)
    else
      var s := CollapseUpTo(m, num, lower, init, n - 1);
      var e := m.edges[n - 1];
      if Eligible(m, num, lower, n - 1) && !Locked(e, s.lock) then
        CollapseState(s.collapse + [n - 1], s.lock + {e.v0, e.v1})
      else s
  }

  /** The edges handed to `bmesh.ops.collapse`. */
  function Collapse(m: Mesh, num: Numerics, lower: real): seq<nat>
  {
    CollapseUpTo(m, num, lower, BoundaryVerts(m), |m.edges|).collapse
  }

  /** The chosen edges are eligible and in edge order: a subsequence of
      `bm.edges`. */
  lemma {:induction false} CollapseUpToChosen(m: Mesh, num: Numerics, lower: real, init: set<nat>, n: nat)
    requires n <= |m.edges|
    ensures Increasing(CollapseUpTo(m, num, lower, init, n).collapse)
    ensures forall k :: 0 <= k < |CollapseUpTo(m, num, lower, init, n).collapse| ==>
      Eligible(m, num, lower, CollapseUpTo(m, num, lower, init, n).collapse[k])
  {
    if n > 0 {
      CollapseUpToChosen(m, num, lower, init, n - 1);
    }
  }

  /** Two edges share an endpoint. */
  predicate ShareVertex(e: Edge, f: Edge) {
    Touches(f, e.v0) || Touches(f, e.v1)
  }

  /** The endpoints of edge `e`. */
  function EdgeVerts(m: Mesh, e: nat): set<nat> {
    if e < |m.edges| then {m.edges[e].v0, m.edges[e].v1} else {}
  }

  /** The endpoints of the listed edges. */
  function Endpoints(m: Mesh, es: seq<nat>): set<nat> {
    if es == [] then {} else Endpoints(m, es[..|es| - 1]) + EdgeVerts(m, es[|es| - 1])
  }

  /** A vertex is an endpoint of the list exactly when a listed edge touches it. */
  lemma {:induction false} EndpointsMember(m: Mesh, es: seq<nat>, x: nat)
    ensures x in Endpoints(m, es) <==>
      exists k :: 0 <= k < |es| && es[k] < |m.edges| && Touches(m.edges[es[k]], x)
  {
    if es != [] {
      var init := es[..|es| - 1];
      EndpointsMember(m, init, x);
      if x in Endpoints(m, init) {
        var k :| 0 <= k < |init| && init[k] < |m.edges| && Touches(m.edges[init[k]], x);
        assert es[k] == init[k];
      }
      if exists k :: 0 <= k < |es| && es[k] < |m.edges| && Touches(m.edges[es[k]], x) {
        var k :| 0 <= k < |es| && es[k] < |m.edges| && Touches(m.edges[es[k]], x);
        if k < |init| {
          assert init[k] == es[k];
        }
      }
    }
  }

  /** The lock set is the initial set plus the chosen edges' endpoints. */
  lemma {:induction false} CollapseUpToLock(m: Mesh, num: Numerics, lower: real, init: set<nat>, n: nat)
    requires n <= |m.edges|
    ensures CollapseUpTo(m, num, lower, init, n).lock
         == init + Endpoints(m, CollapseUpTo(m, num, lower, init, n).collapse)
  {
    if n > 0 {
      CollapseUpToLock(m, num, lower, init, n - 1);
      var s := CollapseUpTo(m, num, lower, init, n - 1);
      if Eligible(m, num, lower, n - 1) && !Locked(m.edges[n - 1], s.lock) {
        var c := s.collapse + [n - 1];
        assert c[..|c| - 1] == s.collapse;
        assert Endpoints(m, c) == Endpoints(m, s.collapse) + EdgeVerts(m, n - 1);
        calc {
          CollapseUpTo(m, num, lower, init, n).lock;
          s.lock + {m.edges[n - 1].v0, m.edges[n - 1].v1};
          init + Endpoints(m, s.collapse) + EdgeVerts(m, n - 1);
          init + Endpoints(m, c);
        }
      }
    }
  }

  /** No two listed edges share a vertex. */
  ghost predicate PairwiseDisjoint(m: Mesh, c: seq<nat>) {
    forall a, b :: 0 <= a < b < |c| && c[a] < |m.edges| && c[b] < |m.edges| ==>
      !ShareVertex(m.edges[c[a]], m.edges[c[b]])
  }

  /** No listed edge has an endpoint in `bad`. */
  ghost predicate Avoids(m: Mesh, c: seq<nat>, bad: set<nat>) {
    forall k :: 0 <= k < |c| && c[k] < |m.edges| ==> !Locked(m.edges[c[k]], bad)
  }

  lemma DisjointSnoc(m: Mesh, c: seq<nat>, e: nat)
    requires e < |m.edges| && PairwiseDisjoint(m, c)
    requires !Locked(m.edges[e], Endpoints(m, c))
    ensures PairwiseDisjoint(m, c + [e])
  {
    var c' := c + [e];
    EndpointsMember(m, c, m.edges[e].v0);
    EndpointsMember(m, c, m.edges[e].v1);
    forall a, b | 0 <= a < b < |c'| && c'[a] < |m.edges| && c'[b] < |m.edges|
      ensures !ShareVertex(m.edges[c'[a]], m.edges[c'[b]])
    {
      if b == |c| {
        assert !Touches(m.edges[c[a]], m.edges[e].v0);
        assert !Touches(m.edges[c[a]], m.edges[e].v1);
      }
    }
  }

  /** No vertex takes part in two collapses: the chosen edges are pairwise
      vertex-disjoint. */
  lemma {:induction false} CollapseUpToDisjoint(m: Mesh, num: Numerics, lower: real, init: set<nat>, n: nat)
    requires n <= |m.edges|
    ensures PairwiseDisjoint(m, CollapseUpTo(m, num, lower, init, n).collapse)
  {
    if n > 0 {
      CollapseUpToDisjoint(m, num, lower, init, n - 1);
      CollapseDisjointStep(m, num, lower, init, n);
    }
  }

  lemma CollapseDisjointStep(m: Mesh, num: Numerics, lower: real, init: set<nat>, n: nat)
    requires 0 < n <= |m.edges|
    requires PairwiseDisjoint(m, CollapseUpTo(m, num, lower, init, n - 1).collapse)
    ensures PairwiseDisjoint(m, CollapseUpTo(m, num, lower, init, n).collapse)
  {
    var s := CollapseUpTo(m, num, lower, init, n - 1);
    if Eligible(m, num, lower, n - 1) && !Locked(m.edges[n - 1], s.lock) {
      CollapseUpToLock(m, num, lower, init, n - 1);
      DisjointSnoc(m, s.collapse, n - 1);
    }
  }

  /** No chosen edge touches a vertex of the initial lock set. */
  lemma {:induction false} CollapseUpToAvoids(m: Mesh, num: Numerics, lower: real, init: set<nat>, n: nat)
    requires n <= |m.edges|
    ensures Avoids(m, CollapseUpTo(m, num, lower, init, n).collapse, init)
  {
    if n > 0 {
      CollapseUpToAvoids(m, num, lower, init, n - 1);
      var s := CollapseUpTo(m, num, lower, init, n - 1);
      if Eligible(m, num, lower, n - 1) && !Locked(m.edges[n - 1], s.lock) {
        CollapseUpToLock(m, num, lower, init, n - 1);
        var c := s.collapse + [n - 1];
        assert forall k :: 0 <= k < |s.collapse| ==> c[k] == s.collapse[k];
      }
    }
  }

  /** Among the first `n` edges, every eligible edge left out of `c` has an
      endpoint in `init` or on an edge listed before it. */
  ghost predicate GreedyUpTo(m: Mesh, num: Numerics, lower: real, init: set<nat>, c: seq<nat>, n: nat)
    requires n <= |m.edges|
  {
    forall e :: 0 <= e < n && Eligible(m, num, lower, e) && e !in c ==>
      || Locked(m.edges[e], init)
      || exists k :: 0 <= k < |c| && c[k] < e && ShareVertex(m.edges[e], m.edges[c[k]])
  }

  lemma GreedyTake(m: Mesh, num: Numerics, lower: real, init: set<nat>, c: seq<nat>, n: nat)
    requires 0 < n <= |m.edges|
    requires GreedyUpTo(m, num, lower, init, c, n - 1)
    ensures GreedyUpTo(m, num, lower, init, c + [n - 1], n)
  {
    var c' := c + [n - 1];
    forall e | 0 <= e < n && Eligible(m, num, lower, e) && e !in c'
      ensures || Locked(m.edges[e], init)
              || exists k :: 0 <= k < |c'| && c'[k] < e && ShareVertex(m.edges[e], m.edges[c'[k]])
    {
      assert e !in c;
      if !Locked(m.edges[e], init) {
        var k :| 0 <= k < |c| && c[k] < e && ShareVertex(m.edges[e], m.edges[c[k]]);
        assert c'[k] == c[k];
      }
    }
  }

  lemma GreedySkip(m: Mesh, num: Numerics, lower: real, init: set<nat>, c: seq<nat>, n: nat)
    requires 0 < n <= |m.edges|
    requires forall k :: 0 <= k < |c| ==> c[k] < n - 1
    requires GreedyUpTo(m, num, lower, init, c, n - 1)
    requires Eligible(m, num, lower, n - 1) ==> Locked(m.edges[n - 1], init + Endpoints(m, c))
    ensures GreedyUpTo(m, num, lower, init, c, n)
  {
    var e := m.edges[n - 1];
    if Eligible(m, num, lower, n - 1) && !Locked(e, init) {
      var x := if e.v0 in Endpoints(m, c) then e.v0 else e.v1;
      EndpointsMember(m, c, x);
      var k :| 0 <= k < |c| && c[k] < |m.edges| && Touches(m.edges[c[k]], x);
      assert ShareVertex(e, m.edges[c[k]]);
    }
  }

  /** Greedy in edge order: an eligible edge is left out only because one of
      its endpoints is in the initial lock set or is an endpoint of an edge
      chosen before it. */
  lemma {:induction false} CollapseUpToGreedy(m: Mesh, num: Numerics, lower: real, init: set<nat>, n: nat)
    requires n <= |m.edges|
    ensures GreedyUpTo(m, num, lower, init, CollapseUpTo(m, num, lower, init, n).collapse, n)
  {
    if n > 0 {
      CollapseUpToGreedy(m, num, lower, init, n - 1);
      CollapseGreedyStep(m, num, lower, init, n);
    }
  }

  lemma CollapseGreedyStep(m: Mesh, num: Numerics, lower: real, init: set<nat>, n: nat)
    requires 0 < n <= |m.edges|
    requires GreedyUpTo(m, num, lower, init, CollapseUpTo(m, num, lower, init, n - 1).collapse, n - 1)
    ensures GreedyUpTo(m, num, lower, init, CollapseUpTo(m, num, lower, init, n).collapse, n)
  {
    var s := CollapseUpTo(m, num, lower, init, n - 1);
    if Eligible(m, num, lower, n - 1) && !Locked(m.edges[n - 1], s.lock) {
      GreedyTake(m, num, lower, init, s.collapse, n);
    } else {
      CollapseUpToLock(m, num, lower, init, n - 1);
      GreedySkip(m, num, lower, init, s.collapse, n);
    }
  }

  /** The collapse loop of lines 119-129, proved against `Collapse`: short
      non-boundary edges, pairwise vertex-disjoint, away from the boundary,
      and chosen greedily in edge order. */
  method SelectCollapse(m: Mesh, num: Numerics, lower: real) returns (collapse: seq<nat>)
    ensures collapse == Collapse(m, num, lower)
    ensures Increasing(collapse)
    ensures forall k :: 0 <= k < |collapse| ==>
      collapse[k] < |m.edges| && EdgeLength(m, num, collapse[k]) < lower && !m.edges[collapse[k]].isBoundary
    ensures PairwiseDisjoint(m, collapse)
    ensures Avoids(m, collapse, BoundaryVerts(m))
    ensures GreedyUpTo(m, num, lower, BoundaryVerts(m), collapse, |m.edges|)
  {
    var lockVerts := set v: nat | 0 <= v < |m.verts| && m.verts[v].isBoundary;
    ghost var init := lockVerts;
    assert init == BoundaryVerts(m);
    collapse := [];
    var i := 0;
    while i < |m.edges|
      invariant i <= |m.edges|
      invariant CollapseUpTo(m, num, lower, init, i) == CollapseState(collapse, lockVerts)
    {
      var edge := m.edges[i];
      if EdgeLength(m, num, i) < lower && !edge.isBoundary {
        var verts := {edge.v0, edge.v1};
        assert verts * lockVerts == {} <==> !Locked(edge, lockVerts) by {
          assert edge.v0 in lockVerts ==> edge.v0 in verts * lockVerts;
          assert edge.v1 in lockVerts ==> edge.v1 in verts * lockVerts;
        }
        if verts * lockVerts == {} {
          collapse := collapse + [i];
          lockVerts := lockVerts + verts;
        }
      }
      i := i + 1;
    }
    CollapseUpToChosen(m, num, lower, init, |m.edges|);
    CollapseUpToDisjoint(m, num, lower, init, |m.edges|);
    CollapseUpToAvoids(m, num, lower, init, |m.edges|);
    CollapseUpToGreedy(m, num, lower, init, |m.edges|);
  }
}
