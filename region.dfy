/** The split of an edit-mode object into the part that is remeshed and
    the part that is kept (constructor, lines 39-57). The working mesh
    drops every vertex none of whose faces is selected; the copy drops
    every vertex all of whose faces are selected, then its selected faces. */
module RegionSplit {
  import opened MeshModel
  import opened Indices

  /** `f.select` for a face the vertex links to. */
  predicate FaceSelected(m: Mesh, f: nat) {
    f < |m.faces| && m.faces[f].select
  }

  /** `all(not f.select for f in vert.link_faces)` */
  predicate NoFaceSelected(m: Mesh, v: nat)
    requires v < |m.verts|
  {
    forall k :: 0 <= k < |m.verts[v].linkFaces| ==> !FaceSelected(m, m.verts[v].linkFaces[k])
  }

  /** `all(f.select for f in vert.link_faces)` */
  predicate AllFacesSelected(m: Mesh, v: nat)
    requires v < |m.verts|
  {
    forall k :: 0 <= k < |m.verts[v].linkFaces| ==> FaceSelected(m, m.verts[v].linkFaces[k])
  }

  /** The vertices removed from the working mesh (`remove`). */
  function OutsideSelection(m: Mesh): seq<nat> {
    Filter(|m.verts|, (v: nat) => v < |m.verts| && NoFaceSelected(m, v))
  }

  /** The vertices removed from the copy (`remove1`). */
  function InsideSelection(m: Mesh): seq<nat> {
    Filter(|m.verts|, (v: nat) => v < |m.verts| && AllFacesSelected(m, v))
  }

  /** The faces removed from the copy once its vertices are gone (line 55). */
  function SelectedFaces(m: Mesh): seq<nat> {
    Filter(|m.faces|, (f: nat) => FaceSelected(m, f))
  }

  /** The loop of lines 43-45. */
  method SelectOutsideSelection(m: Mesh) returns (remove: seq<nat>)
    ensures remove == OutsideSelection(m)
    ensures Increasing(remove)
    ensures forall v: nat :: v in remove <==> v < |m.verts| && NoFaceSelected(m, v)
  {
    remove := [];
    var i := 0;
    while i < |m.verts|
      invariant i <= |m.verts|
      invariant remove == Filter(i, (v: nat) => v < |m.verts| && NoFaceSelected(m, v))
    {
      if NoFaceSelected(m, i) {
        remove := remove + [i];
      }
      i := i + 1;
    }
    FilterExact(|m.verts|, (v: nat) => v < |m.verts| && NoFaceSelected(m, v));
  }

  /** The loop of lines 49-51. */
  method SelectInsideSelection(m: Mesh) returns (remove1: seq<nat>)
    ensures remove1 == InsideSelection(m)
    ensures Increasing(remove1)
    ensures forall v: nat :: v in remove1 <==> v < |m.verts| && AllFacesSelected(m, v)
  {
    remove1 := [];
    var i := 0;
    while i < |m.verts|
      invariant i <= |m.verts|
      invariant remove1 == Filter(i, (v: nat) => v < |m.verts| && AllFacesSelected(m, v))
    {
      if AllFacesSelected(m, i) {
        remove1 := remove1 + [i];
      }
      i := i + 1;
    }
    FilterExact(|m.verts|, (v: nat) => v < |m.verts| && AllFacesSelected(m, v));
  }

  /** The comprehension of line 55. */
  method SelectSelectedFaces(m: Mesh) returns (faces: seq<nat>)
    ensures faces == SelectedFaces(m)
    ensures Increasing(faces)
    ensures forall f: nat :: f in faces <==> f < |m.faces| && m.faces[f].select
  {
    faces := [];
    var i := 0;
    while i < |m.faces|
      invariant i <= |m.faces|
      invariant faces == Filter(i, (f: nat) => FaceSelected(m, f))
    {
      if m.faces[i].select {
        faces := faces + [i];
      }
      i := i + 1;
    }
    FilterExact(|m.faces|, (f: nat) => FaceSelected(m, f));
  }

  /** Python's `all` of an empty sequence is true: a vertex without faces
      is removed from both meshes. */
  lemma FacelessVertexLeavesBoth(m: Mesh, v: nat)
    requires v < |m.verts| && m.verts[v].linkFaces == []
    ensures v in OutsideSelection(m) && v in InsideSelection(m)
  {
    FilterExact(|m.verts|, (v: nat) => v < |m.verts| && NoFaceSelected(m, v));
    FilterExact(|m.verts|, (v: nat) => v < |m.verts| && AllFacesSelected(m, v));
  }

  /** The working mesh keeps a vertex exactly when one of its faces is
      selected; the copy keeps it exactly when one of its faces is not. */
  lemma KeptVertices(m: Mesh, v: nat)
    requires v < |m.verts|
    ensures v !in OutsideSelection(m) <==>
      exists k :: 0 <= k < |m.verts[v].linkFaces| && FaceSelected(m, m.verts[v].linkFaces[k])
    ensures v !in InsideSelection(m) <==>
      exists k :: 0 <= k < |m.verts[v].linkFaces| && !FaceSelected(m, m.verts[v].linkFaces[k])
  {
    FilterExact(|m.verts|, (v: nat) => v < |m.verts| && NoFaceSelected(m, v));
    FilterExact(|m.verts|, (v: nat) => v < |m.verts| && AllFacesSelected(m, v));
  }

  /** A vertex with at least one face stays in at least one of the two
      meshes, and it stays in both exactly when it lies on the border of
      the selection, with a selected and an unselected face. */
  lemma SplitCoversFacedVertices(m: Mesh, v: nat)
    requires v < |m.verts| && m.verts[v].linkFaces != []
    ensures v !in OutsideSelection(m) || v !in InsideSelection(m)
    ensures (v !in OutsideSelection(m) && v !in InsideSelection(m)) <==>
      !NoFaceSelected(m, v) && !AllFacesSelected(m, v)
  {
    KeptVertices(m, v);
    var f := m.verts[v].linkFaces[0];
    if FaceSelected(m, f) {
      assert v !in OutsideSelection(m);
    } else {
      assert v !in InsideSelection(m);
    }
  }
}
