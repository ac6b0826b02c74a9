/**
 * World-matrix propagation (`updateWorldMatrix` in main.js) as a function on arenas, and what it
 * guarantees: the root gets its local matrix, every child gets its parent's world matrix times its
 * own local matrix, and nothing but world matrices changes.
 */
module Propagation {
  import opened Wrappers
  import opened Matrix4
  import opened Hierarchy
  import opened SceneNodes

  /** The world matrix of a node given its parent's world matrix, if any, and its own local matrix. */
  function ParentApply(parentWorld: Option<Mat4>, local: Mat4): Mat4 {
    match parentWorld
    case None => local
    case Some(p) => Mul(p, local)
  }

  /** `a` and `b` hold the same nodes except, possibly, for their world matrices. */
  ghost predicate OnlyWorldsDiffer(a: seq<Node>, b: seq<Node>) {
    |a| == |b| && forall n :: 0 <= n < |a| ==> a[n].(world := b[n].world) == b[n]
  }

  lemma OnlyWorldsDifferKeepsShape(a: seq<Node>, b: seq<Node>)
    requires OnlyWorldsDiffer(a, b)
    ensures ChildListsOf(a) == ChildListsOf(b) && PayloadMarks(a) == PayloadMarks(b)
    ensures forall n :: 0 <= n < |a| ==> a[n].local == b[n].local
  {
    forall n | 0 <= n < |a|
      ensures a[n].children == b[n].children && a[n].drawInfo == b[n].drawInfo && a[n].local == b[n].local
    {
      assert a[n].(world := b[n].world) == b[n];
    }
  }

  /**
   * The arena after `updateWorldMatrix(i, parentWorld)`: write node `i`'s world matrix, then
   * propagate into its children in order, each receiving `i`'s world matrix as it is at that moment.
   */
  ghost function Propagate(ns: seq<Node>, i: nat, parentWorld: Option<Mat4>): (r: seq<Node>)
    requires WellFormed(ChildListsOf(ns)) && i < |ns|
    ensures OnlyWorldsDiffer(r, ns)
    decreases |ns| - i, |ns[i].children| + 1
  {
    var written := ns[i := ns[i].(world := ParentApply(parentWorld, ns[i].local))];
    OnlyWorldsDifferKeepsShape(written, ns);
    PropagateKids(written, i, 0)
  }

  /** Propagation into the children of `i` from position `j` on, in order. */
  ghost function PropagateKids(ns: seq<Node>, i: nat, j: nat): (r: seq<Node>)
    requires WellFormed(ChildListsOf(ns)) && i < |ns| && j <= |ns[i].children|
    ensures OnlyWorldsDiffer(r, ns)
    decreases |ns| - i, |ns[i].children| - j
  {
    if j == |ns[i].children| then ns
    else
      var next := Propagate(ns, ns[i].children[j], Some(ns[i].world));
      OnlyWorldsDifferKeepsShape(next, ns);
      PropagateKids(next, i, j + 1)
  }

  /** Nodes outside the subtree of `i` are left as they were. */
  lemma {:induction false} PropagateFrame(ns: seq<Node>, i: nat, parentWorld: Option<Mat4>, x: nat)
    requires WellFormed(ChildListsOf(ns)) && i < |ns| && x < |ns|
    requires x !in Walk(ChildListsOf(ns), i)
    ensures Propagate(ns, i, parentWorld)[x] == ns[x]
    decreases |ns| - i, |ns[i].children| + 1
  {
    var written := ns[i := ns[i].(world := ParentApply(parentWorld, ns[i].local))];
    OnlyWorldsDifferKeepsShape(written, ns);
    forall m | 0 <= m < |ns[i].children|
      ensures x !in Walk(ChildListsOf(ns), ns[i].children[m])
    {
      if x in Walk(ChildListsOf(ns), ns[i].children[m]) {
        WalkChild(ChildListsOf(ns), i, m, x);
      }
    }
    PropagateKidsFrame(written, i, 0, x);
  }

  /** Propagating into the children of `i` from position `j` on leaves alone every node outside their subtrees. */
  lemma {:induction false} PropagateKidsFrame(ns: seq<Node>, i: nat, j: nat, x: nat)
    requires WellFormed(ChildListsOf(ns)) && i < |ns| && j <= |ns[i].children| && x < |ns|
    requires forall m :: j <= m < |ns[i].children| ==> x !in Walk(ChildListsOf(ns), ns[i].children[m])
    ensures PropagateKids(ns, i, j)[x] == ns[x]
    decreases |ns| - i, |ns[i].children| - j
  {
    if j < |ns[i].children| {
      var next := Propagate(ns, ns[i].children[j], Some(ns[i].world));
      OnlyWorldsDifferKeepsShape(next, ns);
      PropagateFrame(ns, ns[i].children[j], Some(ns[i].world), x);
      PropagateKidsFrame(next, i, j + 1, x);
    }
  }

  /** After propagation the root of the pass holds its parent's world times its local matrix, or its local matrix alone. */
  lemma PropagateRoot(ns: seq<Node>, i: nat, parentWorld: Option<Mat4>)
    requires WellFormed(ChildListsOf(ns)) && i < |ns|
    ensures Propagate(ns, i, parentWorld)[i].world == ParentApply(parentWorld, ns[i].local)
  {
    var written := ns[i := ns[i].(world := ParentApply(parentWorld, ns[i].local))];
    OnlyWorldsDifferKeepsShape(written, ns);
    PropagateKidsFrame(written, i, 0, i);
  }

  /** Node `q`'s children each hold `q`'s world matrix times their own local matrix. */
  ghost predicate Consistent(ns: seq<Node>, q: nat) {
    q < |ns| &&
    forall k :: 0 <= k < |ns[q].children| ==>
      ns[q].children[k] < |ns| &&
      ns[ns[q].children[k]].world == Mul(ns[q].world, ns[ns[q].children[k]].local)
  }

  /** Consistency at `q` only depends on `q` and its children. */
  lemma ConsistentTransfer(a: seq<Node>, b: seq<Node>, q: nat)
    requires Consistent(a, q) && |a| == |b|
    requires b[q] == a[q]
    requires forall k :: 0 <= k < |a[q].children| ==> b[a[q].children[k]] == a[a[q].children[k]]
    ensures Consistent(b, q)
  {
  }

  /**
   * In a forest, after `updateWorldMatrix(i, parentWorld)` every node of the subtree of `i` is
   * consistent with its children: each child's world matrix is the parent's world matrix times the
   * child's local matrix, using the parent's world matrix as written in the same pass.
   */
  lemma {:induction false} PropagateConsistent(ns: seq<Node>, i: nat, parentWorld: Option<Mat4>)
    requires WellFormed(ChildListsOf(ns)) && IsTree(ChildListsOf(ns)) && i < |ns|
    ensures forall q :: q in Walk(ChildListsOf(ns), i) ==> Consistent(Propagate(ns, i, parentWorld), q)
    decreases |ns| - i, |ns[i].children| + 1
  {
    var kids := ChildListsOf(ns);
    var written := ns[i := ns[i].(world := ParentApply(parentWorld, ns[i].local))];
    OnlyWorldsDifferKeepsShape(written, ns);
    var r := PropagateKids(written, i, 0);
    assert r == Propagate(ns, i, parentWorld);
    PropagateKidsConsistent(written, i, 0);
    OnlyWorldsDifferKeepsShape(r, written);
    forall q | q in Walk(kids, i)
      ensures Consistent(r, q)
    {
      if q == i {
        PropagateKidsFrame(written, i, 0, i);
      } else {
        WalkPrefixMember(kids, i, |kids[i]|, q);
      }
    }
  }

  /**
   * In a forest, propagating into the children of `i` from position `j` on gives each of those
   * children the world matrix of `i` times its local matrix, and leaves their subtrees consistent.
   */
  lemma {:induction false} PropagateKidsConsistent(ns: seq<Node>, i: nat, j: nat)
    requires WellFormed(ChildListsOf(ns)) && IsTree(ChildListsOf(ns)) && i < |ns| && j <= |ns[i].children|
    ensures forall m :: j <= m < |ns[i].children| ==>
      PropagateKids(ns, i, j)[ns[i].children[m]].world == Mul(ns[i].world, ns[ns[i].children[m]].local)
    ensures forall m, q :: j <= m < |ns[i].children| && q in Walk(ChildListsOf(ns), ns[i].children[m]) ==>
      Consistent(PropagateKids(ns, i, j), q)
    decreases |ns| - i, |ns[i].children| - j
  {
    if j < |ns[i].children| {
      var kids := ChildListsOf(ns);
      var c := ns[i].children[j];
      var next := Propagate(ns, c, Some(ns[i].world));
      OnlyWorldsDifferKeepsShape(next, ns);
      var r := PropagateKids(next, i, j + 1);
      OnlyWorldsDifferKeepsShape(r, next);
      PropagateKidsConsistent(next, i, j + 1);
      // the parent keeps its world matrix while its children are processed
      PropagateFrame(ns, c, Some(ns[i].world), i);
      // the subtree of child j is not touched by the later children
      forall x | x in Walk(kids, c) && x < |ns|
        ensures r[x] == next[x]
      {
        forall m | j + 1 <= m < |kids[i]|
          ensures x !in Walk(kids, kids[i][m])
        {
          SiblingsDisjoint(kids, i, j, m, x);
        }
        PropagateKidsFrame(next, i, j + 1, x);
      }
      PropagateRoot(ns, c, Some(ns[i].world));
      assert c in Walk(kids, c);
      PropagateConsistent(ns, c, Some(ns[i].world));
      forall q | q in Walk(kids, c)
        ensures Consistent(r, q)
      {
        forall k | 0 <= k < |next[q].children|
          ensures r[next[q].children[k]] == next[next[q].children[k]]
        {
          WalkClosed(kids, c, q, k);
        }
        ConsistentTransfer(next, r, q);
      }
    }
  }

  /**
   * The world matrix reached along a downward path: the first node's local matrix under the
   * given parent matrix, then each further local matrix composed on the right.
   */
  ghost function ComposeAlong(ns: seq<Node>, path: seq<nat>, parentWorld: Option<Mat4>): Mat4
    requires |path| >= 1 && forall t :: 0 <= t < |path| ==> path[t] < |ns|
    decreases |path|
  {
    if |path| == 1 then ParentApply(parentWorld, ns[path[0]].local)
    else Mul(ComposeAlong(ns, path[..|path| - 1], parentWorld), ns[path[|path| - 1]].local)
  }

  /**
   * In a forest, after `updateWorldMatrix(i, parentWorld)` the world matrix of the node at the end
   * of any downward path from `i` is the left-to-right composition of the local matrices on it.
   */
  lemma {:induction false} WorldIsPathComposition(ns: seq<Node>, i: nat, parentWorld: Option<Mat4>, path: seq<nat>)
    requires WellFormed(ChildListsOf(ns)) && IsTree(ChildListsOf(ns)) && i < |ns|
    requires IsDownwardPath(ChildListsOf(ns), path) && path[0] == i
    ensures Propagate(ns, i, parentWorld)[path[|path| - 1]].world == ComposeAlong(ns, path, parentWorld)
    decreases |path|
  {
    var kids := ChildListsOf(ns);
    var r := Propagate(ns, i, parentWorld);
    OnlyWorldsDifferKeepsShape(r, ns);
    if |path| == 1 {
      PropagateRoot(ns, i, parentWorld);
    } else {
      var front := path[..|path| - 1];
      assert IsDownwardPath(kids, front);
      WorldIsPathComposition(ns, i, parentWorld, front);
      var q, x := path[|path| - 2], path[|path| - 1];
      PathStaysInWalk(kids, i, front);
      PropagateConsistent(ns, i, parentWorld);
      assert Consistent(r, q);
      var k :| 0 <= k < |kids[q]| && kids[q][k] == x;
      assert r[x].world == Mul(r[q].world, r[x].local);
    }
  }

  /** Writing the root's world matrix as a copy of its local matrix is the same as composing under the identity. */
  lemma RootIsChildOfIdentity(ns: seq<Node>, i: nat)
    requires WellFormed(ChildListsOf(ns)) && i < |ns|
    ensures Propagate(ns, i, None) == Propagate(ns, i, Some(Identity()))
  {
    MulIdentityLeft(ns[i].local);
  }

  /** A freshly created node is neutral in the hierarchy: whatever its parent's world matrix, it gets that same world matrix. */
  lemma FreshNodeInheritsParentWorld(ns: seq<Node>, i: nat, parentWorld: Mat4, drawInfo: Option<DrawInfo>)
    requires WellFormed(ChildListsOf(ns)) && i < |ns|
    requires ns[i] == CreateNode(drawInfo)
    ensures Propagate(ns, i, Some(parentWorld))[i].world == parentWorld
    ensures Propagate(ns, i, None)[i].world == Identity()
  {
    PropagateRoot(ns, i, Some(parentWorld));
    PropagateRoot(ns, i, None);
    MulIdentityRight(parentWorld);
  }
}
