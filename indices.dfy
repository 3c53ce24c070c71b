/** Index lists in ascending order: the shape of every candidate list the
    remesher builds by walking a mesh collection and appending the
    elements that pass a test. */
module Indices {

  /** Strictly increasing, so a subsequence of 0, 1, 2, ... without repeats. */
  ghost predicate Increasing(s: seq<nat>) {
    forall a, b :: 0 <= a < b < |s| ==> s[a] < s[b]
  }

  /** The indices below `n` that satisfy `p`, in ascending order: what
      `[i for i in range(n) if p(i)]` builds. */
  function Filter(n: nat, p: nat -> bool): seq<nat> {
    if n == 0 then [] else Filter(n - 1, p) + (if p(n - 1) then [n - 1] else [])
  }

  /** `Filter` keeps exactly the indices that pass, each once, in order. */
  lemma {:induction false} FilterExact(n: nat, p: nat -> bool)
    ensures Increasing(Filter(n, p))
    ensures forall i: nat :: i in Filter(n, p) <==> i < n && p(i)
  {
    if n > 0 {
      FilterExact(n - 1, p);
      var s := Filter(n - 1, p);
      forall a | 0 <= a < |s| ensures s[a] < n - 1 {
        assert s[a] in s;
      }
    }
  }
}
