/**
 * Drawable collection (`gatherDrawInfo` in main.js) on the hierarchy: which nodes' payloads are
 * appended, and in which order. `marks[n]` says whether node `n` carries a payload.
 */
module Collection {
  import opened Hierarchy

  /**
   * The nodes whose payloads `gatherDrawInfo(i)` appends, in append order: `i` itself when it has a
   * payload, then what the children append, child by child.
   */
  ghost function Collected(kids: ChildLists, marks: seq<bool>, i: nat): (c: seq<nat>)
    requires WellFormed(kids) && |marks| == |kids| && i < |kids|
    ensures forall k :: 0 <= k < |c| ==> i <= c[k] < |kids| && marks[c[k]]
    decreases |kids| - i, |kids[i]| + 1
  {
    (if marks[i] then [i] else []) + CollectedPrefix(kids, marks, i, |kids[i]|)
  }

  /** What the first `j` children of `i` append, one child after the other. */
  ghost function CollectedPrefix(kids: ChildLists, marks: seq<bool>, i: nat, j: nat): (c: seq<nat>)
    requires WellFormed(kids) && |marks| == |kids| && i < |kids| && j <= |kids[i]|
    ensures forall k :: 0 <= k < |c| ==> i < c[k] < |kids| && marks[c[k]]
    decreases |kids| - i, j
  {
    if j == 0 then [] else CollectedPrefix(kids, marks, i, j - 1) + Collected(kids, marks, kids[i][j - 1])
  }

  /** Every entry of `s` names a node of an arena of `|marks|` nodes. */
  ghost predicate InArena(marks: seq<bool>, s: seq<nat>) {
    forall k :: 0 <= k < |s| ==> s[k] < |marks|
  }

  /** The entries of `s` that carry a payload, in their order in `s`. */
  ghost function Marked(marks: seq<bool>, s: seq<nat>): seq<nat>
    requires InArena(marks, s)
    decreases |s|
  {
    if s == [] then []
    else Marked(marks, s[..|s| - 1]) + (if marks[s[|s| - 1]] then [s[|s| - 1]] else [])
  }

  lemma {:induction false} MarkedConcat(marks: seq<bool>, s: seq<nat>, t: seq<nat>)
    requires InArena(marks, s) && InArena(marks, t)
    ensures InArena(marks, s + t)
    ensures Marked(marks, s + t) == Marked(marks, s) + Marked(marks, t)
    decreases |t|
  {
    if t != [] {
      var t' := t[..|t| - 1];
      assert (s + t)[..|s + t| - 1] == s + t';
      MarkedConcat(marks, s, t');
    } else {
      assert s + t == s;
    }
  }

  /** An entry survives the filter exactly when it is in `s` and carries a payload. */
  lemma {:induction false} MarkedMember(marks: seq<bool>, s: seq<nat>, x: nat)
    requires InArena(marks, s)
    ensures x in Marked(marks, s) <==> x in s && marks[x]
    decreases |s|
  {
    if s != [] {
      var s' := s[..|s| - 1];
      assert s == s' + [s[|s| - 1]];
      MarkedMember(marks, s', x);
    }
  }

  lemma {:induction false} MarkedNoDuplicates(marks: seq<bool>, s: seq<nat>)
    requires InArena(marks, s) && NoDuplicates(s)
    ensures NoDuplicates(Marked(marks, s))
    decreases |s|
  {
    if s != [] {
      var s' := s[..|s| - 1];
      var last := s[|s| - 1];
      assert s == s' + [last];
      assert NoDuplicates(s');
      MarkedNoDuplicates(marks, s');
      MarkedMember(marks, s', last);
      NoDuplicatesConcat(Marked(marks, s'), if marks[last] then [last] else []);
    }
  }

  /**
   * Collection is the pre-order walk of the subtree filtered to the nodes that carry a payload: a
   * payload-less node contributes nothing, but its children are still visited.
   */
  lemma {:induction false} CollectedIsMarkedWalk(kids: ChildLists, marks: seq<bool>, i: nat)
    requires WellFormed(kids) && |marks| == |kids| && i < |kids|
    ensures Collected(kids, marks, i) == Marked(marks, Walk(kids, i))
    decreases |kids| - i, |kids[i]| + 1
  {
    CollectedPrefixIsMarkedWalk(kids, marks, i, |kids[i]|);
    MarkedConcat(marks, [i], WalkPrefix(kids, i, |kids[i]|));
    assert Marked(marks, [i]) == if marks[i] then [i] else [] by {
      assert [i][..0] == [];
    }
  }

  lemma {:induction false} CollectedPrefixIsMarkedWalk(kids: ChildLists, marks: seq<bool>, i: nat, j: nat)
    requires WellFormed(kids) && |marks| == |kids| && i < |kids| && j <= |kids[i]|
    ensures CollectedPrefix(kids, marks, i, j) == Marked(marks, WalkPrefix(kids, i, j))
    decreases |kids| - i, j
  {
    if j > 0 {
      CollectedPrefixIsMarkedWalk(kids, marks, i, j - 1);
      CollectedIsMarkedWalk(kids, marks, kids[i][j - 1]);
      MarkedConcat(marks, WalkPrefix(kids, i, j - 1), Walk(kids, kids[i][j - 1]));
    }
  }

  /**
   * `gatherDrawInfo(i)` appends an entry for exactly the nodes of the subtree that carry a payload:
   * each such node appears and no other node appears.
   */
  lemma CollectedMembers(kids: ChildLists, marks: seq<bool>, i: nat)
    requires WellFormed(kids) && |marks| == |kids| && i < |kids|
    ensures forall x: nat :: x in Collected(kids, marks, i) <==> x in Walk(kids, i) && marks[x]
  {
    CollectedIsMarkedWalk(kids, marks, i);
    forall x: nat
      ensures x in Collected(kids, marks, i) <==> x in Walk(kids, i) && marks[x]
    {
      MarkedMember(marks, Walk(kids, i), x);
    }
  }

  /** In a forest, `gatherDrawInfo(i)` appends no node's payload twice. */
  lemma CollectedExactlyOnce(kids: ChildLists, marks: seq<bool>, i: nat)
    requires WellFormed(kids) && IsTree(kids) && |marks| == |kids| && i < |kids|
    ensures NoDuplicates(Collected(kids, marks, i))
  {
    CollectedIsMarkedWalk(kids, marks, i);
    WalkNoDuplicates(kids, i);
    MarkedNoDuplicates(marks, Walk(kids, i));
  }

  /** `x` occurs in `s` at an earlier position than `y`. */
  ghost predicate Precedes(s: seq<nat>, x: nat, y: nat) {
    exists a, b :: 0 <= a < b < |s| && s[a] == x && s[b] == y
  }

  lemma PrecedesAcross(s: seq<nat>, t: seq<nat>, x: nat, y: nat)
    requires x in s && y in t
    ensures Precedes(s + t, x, y)
  {
    var a :| 0 <= a < |s| && s[a] == x;
    var b :| 0 <= b < |t| && t[b] == y;
    assert (s + t)[a] == x && (s + t)[|s| + b] == y;
  }

  /** An order in `s` is kept when `s` is extended at either end. */
  lemma PrecedesExtend(u: seq<nat>, s: seq<nat>, t: seq<nat>, x: nat, y: nat)
    requires Precedes(s, x, y)
    ensures Precedes(u + s, x, y) && Precedes(s + t, x, y)
  {
    var a, b :| 0 <= a < b < |s| && s[a] == x && s[b] == y;
    assert (u + s)[|u| + a] == x && (u + s)[|u| + b] == y;
    assert (s + t)[a] == x && (s + t)[b] == y;
  }

  lemma PrecedesInPrefix(s: seq<nat>, t: seq<nat>, x: nat, y: nat)
    requires Precedes(s, x, y) && s <= t
    ensures Precedes(t, x, y)
  {
    var a, b :| 0 <= a < b < |s| && s[a] == x && s[b] == y;
    assert t[a] == x && t[b] == y;
  }

  lemma InLongerPrefix(s: seq<nat>, t: seq<nat>, x: nat)
    requires x in s && s <= t
    ensures x in t
  {
    var k :| 0 <= k < |s| && s[k] == x;
    assert t[k] == x;
  }

  /** What the first `j` children append is a prefix of what the first `j'` children append, for `j <= j'`. */
  lemma {:induction false} CollectedPrefixGrows(kids: ChildLists, marks: seq<bool>, i: nat, j: nat, j': nat)
    requires WellFormed(kids) && |marks| == |kids| && i < |kids| && j <= j' <= |kids[i]|
    ensures CollectedPrefix(kids, marks, i, j) <= CollectedPrefix(kids, marks, i, j')
    decreases j' - j
  {
    if j < j' {
      CollectedPrefixGrows(kids, marks, i, j, j' - 1);
    }
  }

  /** An order among the entries of the first `j` children of `i` carries over to what `i` appends. */
  lemma LiftFromPrefix(kids: ChildLists, marks: seq<bool>, i: nat, j: nat, x: nat, y: nat)
    requires WellFormed(kids) && |marks| == |kids| && i < |kids| && j <= |kids[i]|
    requires Precedes(CollectedPrefix(kids, marks, i, j), x, y)
    ensures Precedes(Collected(kids, marks, i), x, y)
  {
    var all := CollectedPrefix(kids, marks, i, |kids[i]|);
    CollectedPrefixGrows(kids, marks, i, j, |kids[i]|);
    PrecedesInPrefix(CollectedPrefix(kids, marks, i, j), all, x, y);
    PrecedesExtend(if marks[i] then [i] else [], all, [], x, y);
  }

  /** An order between two entries of the subtree of child `m` of `i` carries over to what `i` appends. */
  lemma LiftThroughChild(kids: ChildLists, marks: seq<bool>, i: nat, m: nat, x: nat, y: nat)
    requires WellFormed(kids) && |marks| == |kids| && i < |kids| && m < |kids[i]|
    requires Precedes(Collected(kids, marks, kids[i][m]), x, y)
    ensures Precedes(Collected(kids, marks, i), x, y)
  {
    PrecedesExtend(CollectedPrefix(kids, marks, i, m), Collected(kids, marks, kids[i][m]), [], x, y);
    assert Precedes(CollectedPrefix(kids, marks, i, m + 1), x, y);
    LiftFromPrefix(kids, marks, i, m + 1, x, y);
  }

  /** Entries from an earlier child's subtree come before entries from a later child's subtree. */
  lemma ChildEntriesInOrder(kids: ChildLists, marks: seq<bool>, p: nat, a: nat, b: nat, x: nat, y: nat)
    requires WellFormed(kids) && |marks| == |kids| && p < |kids| && a < b < |kids[p]|
    requires x in Collected(kids, marks, kids[p][a]) && y in Collected(kids, marks, kids[p][b])
    ensures Precedes(CollectedPrefix(kids, marks, p, b + 1), x, y)
  {
    var upToA, upToB := CollectedPrefix(kids, marks, p, a + 1), CollectedPrefix(kids, marks, p, b);
    assert upToA == CollectedPrefix(kids, marks, p, a) + Collected(kids, marks, kids[p][a]);
    CollectedPrefixGrows(kids, marks, p, a + 1, b);
    InLongerPrefix(upToA, upToB, x);
    assert CollectedPrefix(kids, marks, p, b + 1) == upToB + Collected(kids, marks, kids[p][b]);
    PrecedesAcross(upToB, Collected(kids, marks, kids[p][b]), x, y);
  }

  /** An order between two entries appended for a node `p` of the subtree of `i` carries over to what `i` appends. */
  lemma {:induction false} LiftPrecedes(kids: ChildLists, marks: seq<bool>, i: nat, p: nat, x: nat, y: nat)
    requires WellFormed(kids) && |marks| == |kids| && i < |kids|
    requires p in Walk(kids, i)
    requires Precedes(Collected(kids, marks, p), x, y)
    ensures Precedes(Collected(kids, marks, i), x, y)
    decreases |kids| - i
  {
    if p != i {
      WalkPrefixMember(kids, i, |kids[i]|, p);
      var m :| 0 <= m < |kids[i]| && p in Walk(kids, kids[i][m]);
      LiftPrecedes(kids, marks, kids[i][m], p, x, y);
      LiftThroughChild(kids, marks, i, m, x, y);
    }
  }

  /** A node's own entry is appended before the entries of all its descendants. */
  lemma ParentBeforeDescendants(kids: ChildLists, marks: seq<bool>, i: nat, p: nat, d: nat)
    requires WellFormed(kids) && |marks| == |kids| && i < |kids|
    requires p in Walk(kids, i) && marks[p]
    requires d in Walk(kids, p) && d != p && marks[d]
    ensures Precedes(Collected(kids, marks, i), p, d)
  {
    CollectedIsMarkedWalk(kids, marks, p);
    MarkedMember(marks, Walk(kids, p), d);
    var after := CollectedPrefix(kids, marks, p, |kids[p]|);
    assert d in after;
    PrecedesAcross([p], after, p, d);
    LiftPrecedes(kids, marks, i, p, p, d);
  }

  /**
   * Siblings are visited in the order of the child list: every entry from the subtree of an
   * earlier child is appended before every entry from the subtree of a later child.
   */
  lemma SiblingsInChildOrder(kids: ChildLists, marks: seq<bool>, i: nat, p: nat, a: nat, b: nat, x: nat, y: nat)
    requires WellFormed(kids) && |marks| == |kids| && i < |kids|
    requires p in Walk(kids, i) && a < b < |kids[p]|
    requires x in Walk(kids, kids[p][a]) && marks[x]
    requires y in Walk(kids, kids[p][b]) && marks[y]
    ensures Precedes(Collected(kids, marks, i), x, y)
  {
    CollectedIsMarkedWalk(kids, marks, kids[p][a]);
    MarkedMember(marks, Walk(kids, kids[p][a]), x);
    CollectedIsMarkedWalk(kids, marks, kids[p][b]);
    MarkedMember(marks, Walk(kids, kids[p][b]), y);
    ChildEntriesInOrder(kids, marks, p, a, b, x, y);
    LiftFromPrefix(kids, marks, p, b + 1, x, y);
    LiftPrecedes(kids, marks, i, p, x, y);
  }
}
