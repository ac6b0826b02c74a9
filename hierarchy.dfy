/**
 * The shape of a scene hierarchy stored in an arena: node `n` is addressed by its index and
 * `kids[n]` is its ordered list of child indices (the `children` array of main.js).
 */
module Hierarchy {

  type ChildLists = seq<seq<nat>>

  /** Every child index lies after its parent's index and inside the arena, so the hierarchy is acyclic. */
  ghost predicate WellFormed(kids: ChildLists) {
    forall n, k :: 0 <= n < |kids| && 0 <= k < |kids[n]| ==> n < kids[n][k] < |kids|
  }

  /** Every node is listed as a child at most once in the whole arena: the hierarchy is a forest. */
  ghost predicate IsTree(kids: ChildLists) {
    forall n1, k1, n2, k2 ::
      (0 <= n1 < |kids| && 0 <= k1 < |kids[n1]| && 0 <= n2 < |kids| && 0 <= k2 < |kids[n2]| &&
       kids[n1][k1] == kids[n2][k2]) ==> n1 == n2 && k1 == k2
  }

  /** Node `x` is listed as somebody's child. */
  ghost predicate HasParent(kids: ChildLists, x: nat) {
    exists n, k :: 0 <= n < |kids| && 0 <= k < |kids[n]| && kids[n][k] == x
  }

  ghost predicate NoDuplicates(s: seq<nat>) {
    forall a, b :: 0 <= a < b < |s| ==> s[a] != s[b]
  }

  /**
   * The depth-first pre-order walk of the subtree rooted at `i`: the node itself, then the walks of
   * its children in the order they were pushed.
   */
  ghost function Walk(kids: ChildLists, i: nat): (w: seq<nat>)
    requires WellFormed(kids) && i < |kids|
    ensures |w| >= 1 && w[0] == i
    ensures forall k :: 0 <= k < |w| ==> i <= w[k] < |kids|
    decreases |kids| - i, |kids[i]| + 1
  {
    [i] + WalkPrefix(kids, i, |kids[i]|)
  }

  /** The walks of the first `j` children of `i`, one after the other. */
  ghost function WalkPrefix(kids: ChildLists, i: nat, j: nat): (w: seq<nat>)
    requires WellFormed(kids) && i < |kids| && j <= |kids[i]|
    ensures forall k :: 0 <= k < |w| ==> i < w[k] < |kids|
    decreases |kids| - i, j
  {
    if j == 0 then [] else WalkPrefix(kids, i, j - 1) + Walk(kids, kids[i][j - 1])
  }

  /** A node is in the walk of the first `j` children exactly when it is in the subtree of one of them. */
  lemma {:induction false} WalkPrefixMember(kids: ChildLists, i: nat, j: nat, x: nat)
    requires WellFormed(kids) && i < |kids| && j <= |kids[i]|
    ensures x in WalkPrefix(kids, i, j) <==> exists m :: 0 <= m < j && x in Walk(kids, kids[i][m])
    decreases j
  {
    if j > 0 {
      WalkPrefixMember(kids, i, j - 1, x);
      var before, last := WalkPrefix(kids, i, j - 1), Walk(kids, kids[i][j - 1]);
      assert WalkPrefix(kids, i, j) == before + last;
      if x in before {
        var m :| 0 <= m < j - 1 && x in Walk(kids, kids[i][m]);
        assert 0 <= m < j && x in Walk(kids, kids[i][m]);
      } else if x in last {
        assert 0 <= j - 1 < j && x in Walk(kids, kids[i][j - 1]);
      }
      if exists m :: 0 <= m < j && x in Walk(kids, kids[i][m]) {
        var m :| 0 <= m < j && x in Walk(kids, kids[i][m]);
        if m < j - 1 {
          assert x in before;
        }
      }
    }
  }

  /** The subtree of a child lies inside the subtree of its parent. */
  lemma WalkChild(kids: ChildLists, i: nat, m: nat, x: nat)
    requires WellFormed(kids) && i < |kids| && m < |kids[i]|
    requires x in Walk(kids, kids[i][m])
    ensures x in Walk(kids, i) && x != i
  {
    WalkPrefixMember(kids, i, |kids[i]|, x);
  }

  /** Every node of a subtree other than its root is the child of another node of that subtree. */
  lemma {:induction false} WalkParent(kids: ChildLists, i: nat, x: nat)
    requires WellFormed(kids) && i < |kids|
    requires x in Walk(kids, i) && x != i
    ensures exists q, k :: q in Walk(kids, i) && 0 <= k < |kids[q]| && kids[q][k] == x
    decreases |kids| - i
  {
    WalkPrefixMember(kids, i, |kids[i]|, x);
    var m :| 0 <= m < |kids[i]| && x in Walk(kids, kids[i][m]);
    var c := kids[i][m];
    if x == c {
      assert i in Walk(kids, i);
    } else {
      WalkParent(kids, c, x);
      var q, k :| q in Walk(kids, c) && 0 <= k < |kids[q]| && kids[q][k] == x;
      WalkChild(kids, i, m, q);
    }
  }

  /** A subtree is closed under taking children. */
  lemma {:induction false} WalkClosed(kids: ChildLists, i: nat, q: nat, k: nat)
    requires WellFormed(kids) && i < |kids|
    requires q in Walk(kids, i) && k < |kids[q]|
    ensures kids[q][k] in Walk(kids, i)
    decreases |kids| - i
  {
    if q == i {
      WalkChild(kids, i, k, kids[q][k]);
    } else {
      WalkPrefixMember(kids, i, |kids[i]|, q);
      var m :| 0 <= m < |kids[i]| && q in Walk(kids, kids[i][m]);
      WalkClosed(kids, kids[i][m], q, k);
      WalkChild(kids, i, m, kids[q][k]);
    }
  }

  /** In a forest, the subtrees of two different children of one node share no node. */
  lemma {:induction false} SiblingsDisjoint(kids: ChildLists, p: nat, a: nat, b: nat, x: nat)
    requires WellFormed(kids) && IsTree(kids) && p < |kids|
    requires a < |kids[p]| && b < |kids[p]| && a != b
    requires x in Walk(kids, kids[p][a])
    ensures x !in Walk(kids, kids[p][b])
    decreases x
  {
    var ca, cb := kids[p][a], kids[p][b];
    if x in Walk(kids, cb) {
      if x == ca {
        WalkParent(kids, cb, x);
        assert false;
      } else if x == cb {
        WalkParent(kids, ca, x);
        assert false;
      } else {
        WalkParent(kids, ca, x);
        var q1, k1 :| q1 in Walk(kids, ca) && 0 <= k1 < |kids[q1]| && kids[q1][k1] == x;
        WalkParent(kids, cb, x);
        var q2, k2 :| q2 in Walk(kids, cb) && 0 <= k2 < |kids[q2]| && kids[q2][k2] == x;
        assert q1 == q2;
        SiblingsDisjoint(kids, p, a, b, q1);
        assert false;
      }
    }
  }

  /** Two sequences without duplicates and without a common element concatenate to one without duplicates. */
  lemma NoDuplicatesConcat(s: seq<nat>, t: seq<nat>)
    requires NoDuplicates(s) && NoDuplicates(t)
    requires forall x :: x in s ==> x !in t
    ensures NoDuplicates(s + t)
  {
    forall a, b | 0 <= a < b < |s + t|
      ensures (s + t)[a] != (s + t)[b]
    {
      if a < |s| && |s| <= b {
        assert (s + t)[a] in s && (s + t)[b] in t;
      }
    }
  }

  /** In a forest the pre-order walk visits every node of the subtree exactly once. */
  lemma {:induction false} WalkNoDuplicates(kids: ChildLists, i: nat)
    requires WellFormed(kids) && IsTree(kids) && i < |kids|
    ensures NoDuplicates(Walk(kids, i))
    decreases |kids| - i, |kids[i]| + 1
  {
    WalkPrefixNoDuplicates(kids, i, |kids[i]|);
    NoDuplicatesConcat([i], WalkPrefix(kids, i, |kids[i]|));
  }

  lemma {:induction false} WalkPrefixNoDuplicates(kids: ChildLists, i: nat, j: nat)
    requires WellFormed(kids) && IsTree(kids) && i < |kids| && j <= |kids[i]|
    ensures NoDuplicates(WalkPrefix(kids, i, j))
    decreases |kids| - i, j
  {
    if j > 0 {
      WalkPrefixNoDuplicates(kids, i, j - 1);
      WalkNoDuplicates(kids, kids[i][j - 1]);
      var before := WalkPrefix(kids, i, j - 1);
      forall x | x in before
        ensures x !in Walk(kids, kids[i][j - 1])
      {
        WalkPrefixMember(kids, i, j - 1, x);
        var m :| 0 <= m < j - 1 && x in Walk(kids, kids[i][m]);
        SiblingsDisjoint(kids, i, m, j - 1, x);
      }
      NoDuplicatesConcat(WalkPrefix(kids, i, j - 1), Walk(kids, kids[i][j - 1]));
    }
  }

  /** A downward path: consecutive entries are parent and child. */
  ghost predicate IsDownwardPath(kids: ChildLists, path: seq<nat>) {
    |path| >= 1 &&
    (forall t :: 0 <= t < |path| ==> path[t] < |kids|) &&
    (forall t :: 0 <= t < |path| - 1 ==> path[t + 1] in kids[path[t]])
  }

  /** Every node of a subtree is reached from the subtree's root by a downward path. */
  lemma {:induction false} ReachedByPath(kids: ChildLists, i: nat, x: nat)
    requires WellFormed(kids) && i < |kids|
    requires x in Walk(kids, i)
    ensures exists path :: IsDownwardPath(kids, path) && path[0] == i && path[|path| - 1] == x
    decreases x
  {
    if x == i {
      assert IsDownwardPath(kids, [i]);
    } else {
      WalkParent(kids, i, x);
      var q, k :| q in Walk(kids, i) && 0 <= k < |kids[q]| && kids[q][k] == x;
      ReachedByPath(kids, i, q);
      var path :| IsDownwardPath(kids, path) && path[0] == i && path[|path| - 1] == q;
      var longer := path + [x];
      assert longer[|longer| - 1] in kids[longer[|longer| - 2]];
      assert IsDownwardPath(kids, longer);
    }
  }

  /** A downward path that starts at the root of a subtree stays inside it. */
  lemma {:induction false} PathStaysInWalk(kids: ChildLists, i: nat, path: seq<nat>)
    requires WellFormed(kids) && i < |kids|
    requires IsDownwardPath(kids, path) && path[0] == i
    ensures path[|path| - 1] in Walk(kids, i)
    decreases |path|
  {
    if |path| > 1 {
      var front := path[..|path| - 1];
      assert IsDownwardPath(kids, front);
      PathStaysInWalk(kids, i, front);
      var q := path[|path| - 2];
      assert path[(|path| - 2) + 1] in kids[path[|path| - 2]];
      var k :| 0 <= k < |kids[q]| && kids[q][k] == path[|path| - 1];
      WalkClosed(kids, i, q, k);
    }
  }

  /** Pushing a later node onto a child list keeps the hierarchy acyclic. */
  lemma PushChildKeepsWellFormed(kids: ChildLists, parent: nat, child: nat)
    requires WellFormed(kids) && parent < child < |kids|
    ensures WellFormed(kids[parent := kids[parent] + [child]])
  {
  }

  /** Pushing a node that has no parent yet onto a child list keeps the hierarchy a forest. */
  lemma PushChildKeepsTree(kids: ChildLists, parent: nat, child: nat)
    requires IsTree(kids) && parent < |kids| && !HasParent(kids, child)
    ensures IsTree(kids[parent := kids[parent] + [child]])
  {
    var pushed := kids[parent := kids[parent] + [child]];
    forall n1, k1, n2, k2 |
      0 <= n1 < |pushed| && 0 <= k1 < |pushed[n1]| && 0 <= n2 < |pushed| && 0 <= k2 < |pushed[n2]| &&
      pushed[n1][k1] == pushed[n2][k2]
      ensures n1 == n2 && k1 == k2
    {
      var fresh1 := n1 == parent && k1 == |kids[parent]|;
      var fresh2 := n2 == parent && k2 == |kids[parent]|;
      if !fresh1 {
        assert pushed[n1][k1] == kids[n1][k1];
      }
      if !fresh2 {
        assert pushed[n2][k2] == kids[n2][k2];
      }
    }
  }
}
