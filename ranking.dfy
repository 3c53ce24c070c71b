/** The neighbour ranking of `align_verts`: Python's stable `sorted` on a
    key per neighbour, and the rule entries that pick ranked neighbours by
    `i % le`. */
module Ranking {

  /** Position `a` comes before position `b` in a stable ascending sort:
      a smaller key, or an equal key and an earlier position. */
  predicate Before(keys: seq<real>, a: nat, b: nat)
    requires a < |keys| && b < |keys|
  {
    keys[a] < keys[b] || (keys[a] == keys[b] && a < b)
  }

  /** Every position is in range and the list is strictly ordered by `Before`. */
  ghost predicate StablySorted(keys: seq<real>, s: seq<nat>) {
    && (forall k :: 0 <= k < |s| ==> s[k] < |keys|)
    && (forall a, b :: 0 <= a < b < |s| ==> Before(keys, s[a], s[b]))
  }

  /** Inserts position `x` into a list ordered by `Before`. */
  function Insert(keys: seq<real>, x: nat, s: seq<nat>): (r: seq<nat>)
    requires x < |keys|
    ensures |r| == |s| + 1
  {
    if s == [] then [x]
    else if Before'(keys, x, s[0]) then [x] + s
    else [s[0]] + Insert(keys, x, s[1..])
  }

  /** Inserting adds `x` and keeps every element already there. */
  lemma {:induction false} InsertElements(keys: seq<real>, x: nat, s: seq<nat>)
    requires x < |keys|
    ensures x in Insert(keys, x, s) && forall y :: y in s ==> y in Insert(keys, x, s)
    ensures forall k :: 0 <= k < |s| + 1 ==> Insert(keys, x, s)[k] == x || Insert(keys, x, s)[k] in s
  {
    if s != [] && !Before'(keys, x, s[0]) {
      InsertElements(keys, x, s[1..]);
      var r := Insert(keys, x, s);
      forall k | 0 <= k < |s| + 1 ensures r[k] == x || r[k] in s {
        if k > 0 {
          assert r[k] == Insert(keys, x, s[1..])[k - 1];
        }
      }
      forall y | y in s ensures y in r {
        if y != s[0] {
          assert y in s[1..];
        }
      }
    }
  }

  /** `Before` on positions that may lie outside `keys`. */
  predicate Before'(keys: seq<real>, a: nat, b: nat) {
    a < |keys| && b < |keys| && Before(keys, a, b)
  }

  /** The positions of the first `n` keys in the order `sorted` returns
      their items. */
  function StableOrderUpTo(keys: seq<real>, n: nat): (r: seq<nat>)
    requires n <= |keys|
    ensures |r| == n
    ensures forall k :: 0 <= k < |r| ==> r[k] < n
  {
    if n == 0 then []
    else
      var s := StableOrderUpTo(keys, n - 1);
      InsertElements(keys, n - 1, s);
      Insert(keys, n - 1, s)
  }

  /** `sorted(range(len(keys)), key=keys.__getitem__)` */
  function StableOrder(keys: seq<real>): seq<nat> {
    StableOrderUpTo(keys, |keys|)
  }

  lemma BeforeTotal(keys: seq<real>, a: nat, b: nat)
    requires a < |keys| && b < |keys| && a != b
    ensures Before(keys, a, b) != Before(keys, b, a)
  {
  }

  lemma {:induction false} InsertSorted(keys: seq<real>, x: nat, s: seq<nat>)
    requires x < |keys| && x !in s
    requires StablySorted(keys, s)
    ensures StablySorted(keys, Insert(keys, x, s))
  {
    if s != [] && !Before(keys, x, s[0]) {
      var t := s[1..];
      assert StablySorted(keys, t) by {
        forall a, b | 0 <= a < b < |t| ensures Before(keys, t[a], t[b]) {
          assert t[a] == s[a + 1] && t[b] == s[b + 1];
        }
      }
      InsertSorted(keys, x, t);
      InsertSortedHead(keys, x, s);
      InsertElements(keys, x, t);
    } else if s != [] {
      forall k | 0 <= k < |s| ensures Before(keys, x, s[k]) {
        if k > 0 {
          assert Before(keys, s[0], s[k]);
        }
      }
    }
  }

  /** When `x` goes after the head, the head stays before everything else. */
  lemma InsertSortedHead(keys: seq<real>, x: nat, s: seq<nat>)
    requires x < |keys| && x !in s && s != []
    requires StablySorted(keys, s) && !Before(keys, x, s[0])
    ensures forall y :: y in Insert(keys, x, s[1..]) ==> y < |keys| && Before(keys, s[0], y)
  {
    BeforeTotal(keys, x, s[0]);
    InsertElements(keys, x, s[1..]);
    forall y | y in Insert(keys, x, s[1..]) ensures y < |keys| && Before(keys, s[0], y) {
      if y != x {
        var j :| 0 <= j < |s[1..]| && s[1..][j] == y;
        assert s[j + 1] == y;
      }
    }
  }

  /** The order is strict under `Before`, so it has no repeated position. */
  lemma {:induction false} StableOrderUpToSorted(keys: seq<real>, n: nat)
    requires n <= |keys|
    ensures StablySorted(keys, StableOrderUpTo(keys, n))
  {
    if n > 0 {
      StableOrderUpToSorted(keys, n - 1);
      InsertSorted(keys, n - 1, StableOrderUpTo(keys, n - 1));
    }
  }

  /** Every position below `n` is listed. */
  lemma {:induction false} StableOrderUpToComplete(keys: seq<real>, n: nat)
    requires n <= |keys|
    ensures forall i: nat :: i < n ==> i in StableOrderUpTo(keys, n)
  {
    if n > 0 {
      StableOrderUpToComplete(keys, n - 1);
      InsertElements(keys, n - 1, StableOrderUpTo(keys, n - 1));
    }
  }

  /** `sorted` returns a permutation of its input, ordered by key, equal keys
      in their original order; so its first item has the least key and its
      last item the greatest. */
  lemma StableOrderIsStableSort(keys: seq<real>)
    ensures |StableOrder(keys)| == |keys|
    ensures forall i: nat :: i in StableOrder(keys) <==> i < |keys|
    ensures forall a, b :: 0 <= a < b < |keys| ==> StableOrder(keys)[a] != StableOrder(keys)[b]
    ensures forall a, b :: 0 <= a < b < |keys| ==>
      keys[StableOrder(keys)[a]] <= keys[StableOrder(keys)[b]]
    ensures forall a, b :: 0 <= a < b < |keys| && keys[StableOrder(keys)[a]] == keys[StableOrder(keys)[b]] ==>
      StableOrder(keys)[a] < StableOrder(keys)[b]
    ensures forall j :: 0 <= j < |keys| ==>
      keys[StableOrder(keys)[0]] <= keys[j] <= keys[StableOrder(keys)[|keys| - 1]]
  {
    var r := StableOrder(keys);
    StableOrderUpToSorted(keys, |keys|);
    StableOrderUpToComplete(keys, |keys|);
    forall j | 0 <= j < |keys|
      ensures keys[r[0]] <= keys[j] <= keys[r[|keys| - 1]]
    {
      assert j in r;
      var k :| 0 <= k < |r| && r[k] == j;
      if 0 < k {
        assert Before(keys, r[0], r[k]);
      }
      if k < |keys| - 1 {
        assert Before(keys, r[k], r[|keys| - 1]);
      }
    }
  }

  /** The items of `items` in the order `order` lists their positions. */
  function Permute<T>(items: seq<T>, order: seq<nat>): (r: seq<T>)
    requires forall k :: 0 <= k < |order| ==> order[k] < |items|
    ensures |r| == |order|
  {
    seq(|order|, k requires 0 <= k < |order| => items[order[k]])
  }

  /** Python's `i % n` for a positive `n`: the remainder takes the sign of
      the divisor, so a negative rule entry counts from the end. */
  function PyMod(i: int, n: nat): (r: nat)
    requires n > 0
    ensures r < n
  {
    i % n
  }

  /** `best[i % le] for i in rule` */
  function Picks<T>(best: seq<T>, rule: seq<int>): (r: seq<T>)
    requires |best| > 0 || rule == []
    ensures |r| == |rule|
  {
    seq(|rule|, k requires 0 <= k < |rule| => best[PyMod(rule[k], |best|)])
  }

  /** Entries `-1`, `-2`, `-3` and `-4` count from the end of the ranking. */
  lemma NegativeEntriesCountFromEnd(i: int, n: nat)
    requires 0 < n && -(n as int) <= i < 0
    ensures PyMod(i, n) == n + i
  {
    assert i == -1 * (n as int) + (n + i);
  }

  /** Entries `0` to `le - 1` pick the ranked neighbour of that index. */
  lemma SmallEntriesCountFromStart(i: int, n: nat)
    requires 0 <= i < n
    ensures PyMod(i, n) == i
  {
  }

  /** `remesh`'s rule for quads, `(-1, -2, 0, 1)`. */
  const QuadRule: seq<int> := [-1, -2, 0, 1]

  /** `remesh`'s rule for triangles, `(0, 1, 2, 3)`. */
  const TriRule: seq<int> := [0, 1, 2, 3]

  /** `align_verts`'s default rule, `(-1, -2, -3, -4)`. */
  const DefaultRule: seq<int> := [-1, -2, -3, -4]

  /** With at least two neighbours the quad rule averages the two last and
      the two first ranked neighbours. */
  lemma QuadRulePicks<T>(best: seq<T>)
    requires |best| >= 2
    ensures Picks(best, QuadRule) == [best[|best| - 1], best[|best| - 2], best[0], best[1]]
  {
    NegativeEntriesCountFromEnd(-1, |best|);
    NegativeEntriesCountFromEnd(-2, |best|);
    SmallEntriesCountFromStart(0, |best|);
    SmallEntriesCountFromStart(1, |best|);
  }

  /** With at least four neighbours the triangle rule averages the first four
      ranked neighbours. */
  lemma TriRulePicks<T>(best: seq<T>)
    requires |best| >= 4
    ensures Picks(best, TriRule) == best[..4]
  {
    SmallEntriesCountFromStart(0, |best|);
    SmallEntriesCountFromStart(1, |best|);
    SmallEntriesCountFromStart(2, |best|);
    SmallEntriesCountFromStart(3, |best|);
  }

  /** With at least four neighbours the default rule averages the last four. */
  lemma DefaultRulePicks<T>(best: seq<T>)
    requires |best| >= 4
    ensures Picks(best, DefaultRule) == [best[|best| - 1], best[|best| - 2], best[|best| - 3], best[|best| - 4]]
  {
    NegativeEntriesCountFromEnd(-1, |best|);
    NegativeEntriesCountFromEnd(-2, |best|);
    NegativeEntriesCountFromEnd(-3, |best|);
    NegativeEntriesCountFromEnd(-4, |best|);
  }
}
