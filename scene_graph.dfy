/**
 * The scene graph of main.js as an object updated in place: an arena of nodes, the child-list
 * pushes that build the hierarchy, the per-frame writes of local matrices, the world-matrix pass
 * (`updateWorldMatrix`) and the drawable collection (`gatherDrawInfo`).
 */
module SceneGraphs {
  import opened Wrappers
  import opened Matrix4
  import opened Hierarchy
  import opened SceneNodes
  import opened Propagation
  import opened Collection

  /** Node `n` with the back-reference of its payload, if it has one, set to `n`. */
  function Stamp(nd: Node, n: nat): (r: Node)
    ensures r.drawInfo.Some? == nd.drawInfo.Some?
    ensures r.drawInfo.Some? ==> r.drawInfo.value == nd.drawInfo.value.(node := Some(n))
    ensures r.(drawInfo := nd.drawInfo) == nd
  {
    match nd.drawInfo
    case None => nd
    case Some(d) => nd.(drawInfo := Some(d.(node := Some(n))))
  }

  /** The payloads of the nodes listed in `c`, in that order, each pointing back to its node. */
  ghost function Tagged(ns: seq<Node>, c: seq<nat>): (ds: seq<DrawInfo>)
    requires forall k :: 0 <= k < |c| ==> c[k] < |ns| && ns[c[k]].drawInfo.Some?
  {
    seq(|c|, k requires 0 <= k < |c| => ns[c[k]].drawInfo.value.(node := Some(c[k])))
  }

  /** `a` is `b` with the back-references of some payloads set. */
  ghost predicate StampedFrom(a: seq<Node>, b: seq<Node>) {
    |a| == |b| && forall n :: 0 <= n < |a| ==> a[n] == b[n] || a[n] == Stamp(b[n], n)
  }

  lemma StampedKeepsShape(a: seq<Node>, b: seq<Node>)
    requires StampedFrom(a, b)
    ensures ChildListsOf(a) == ChildListsOf(b) && PayloadMarks(a) == PayloadMarks(b)
  {
    forall n | 0 <= n < |a|
      ensures a[n].children == b[n].children && a[n].drawInfo.Some? == b[n].drawInfo.Some?
    {
    }
  }

  lemma TaggedIgnoresStamps(a: seq<Node>, b: seq<Node>, c: seq<nat>)
    requires StampedFrom(a, b)
    requires forall k :: 0 <= k < |c| ==> c[k] < |b| && b[c[k]].drawInfo.Some?
    ensures forall k :: 0 <= k < |c| ==> c[k] < |a| && a[c[k]].drawInfo.Some?
    ensures Tagged(a, c) == Tagged(b, c)
  {
  }

  lemma TaggedConcat(ns: seq<Node>, c: seq<nat>, d: seq<nat>)
    requires forall k :: 0 <= k < |c| ==> c[k] < |ns| && ns[c[k]].drawInfo.Some?
    requires forall k :: 0 <= k < |d| ==> d[k] < |ns| && ns[d[k]].drawInfo.Some?
    ensures Tagged(ns, c + d) == Tagged(ns, c) + Tagged(ns, d)
  {
  }

  /** `a` is `b` with the back-reference of every node listed in `visited` set, and nothing else changed. */
  ghost predicate StampedOn(a: seq<Node>, b: seq<Node>, visited: seq<nat>) {
    |a| == |b| && forall n :: 0 <= n < |a| ==> a[n] == if n in visited then Stamp(b[n], n) else b[n]
  }

  lemma StampedOnCompose(a: seq<Node>, b: seq<Node>, c: seq<Node>, s: seq<nat>, t: seq<nat>)
    requires StampedOn(b, a, s) && StampedOn(c, b, t)
    ensures StampedOn(c, a, s + t) && StampedFrom(b, a) && StampedFrom(c, b)
  {
  }

  /** Stamping twice is stamping once, so stamped arenas compose. */
  lemma StampedFromTrans(a: seq<Node>, b: seq<Node>, c: seq<Node>)
    requires StampedFrom(b, a) && StampedFrom(c, b)
    ensures StampedFrom(c, a)
  {
    forall n | 0 <= n < |a|
      ensures c[n] == a[n] || c[n] == Stamp(a[n], n)
    {
      assert Stamp(Stamp(a[n], n), n) == Stamp(a[n], n);
    }
  }

  /** The payload `gatherDrawInfo` appends for node `i` of `ns`: none, or its payload pointing back at `i`. */
  function OwnEntry(ns: seq<Node>, i: nat): (e: seq<DrawInfo>)
    requires i < |ns|
    ensures |e| <= 1 && (|e| == 1 <==> ns[i].drawInfo.Some?)
    ensures |e| == 1 ==> e[0].color == ns[i].drawInfo.value.color && e[0].node == Some(i)
  {
    if ns[i].drawInfo.Some? then [ns[i].drawInfo.value.(node := Some(i))] else []
  }

  /**
   * The arena and the list after `gatherDrawInfo(i)` appending to `out`: stamp node `i` and append
   * its payload, then gather the children in order, each seeing the arena as left by the one before.
   */
  ghost function Gather(ns: seq<Node>, i: nat, out: seq<DrawInfo>): (r: (seq<Node>, seq<DrawInfo>))
    requires WellFormed(ChildListsOf(ns)) && i < |ns|
    ensures StampedFrom(r.0, ns)
    decreases |ns| - i, |ns[i].children| + 1
  {
    var stamped := ns[i := Stamp(ns[i], i)];
    assert StampedFrom(stamped, ns);
    StampedKeepsShape(stamped, ns);
    var r := GatherKids(stamped, i, 0, out + OwnEntry(ns, i));
    StampedFromTrans(ns, stamped, r.0);
    r
  }

  /** Gathering the children of `i` from position `j` on, in order. */
  ghost function GatherKids(ns: seq<Node>, i: nat, j: nat, out: seq<DrawInfo>): (r: (seq<Node>, seq<DrawInfo>))
    requires WellFormed(ChildListsOf(ns)) && i < |ns| && j <= |ns[i].children|
    ensures StampedFrom(r.0, ns)
    decreases |ns| - i, |ns[i].children| - j
  {
    if j == |ns[i].children| then
      assert StampedFrom(ns, ns);
      (ns, out)
    else
      var next := Gather(ns, ns[i].children[j], out);
      StampedKeepsShape(next.0, ns);
      var r := GatherKids(next.0, i, j + 1, next.1);
      StampedFromTrans(ns, next.0, r.0);
      r
  }

  /** One step of the gathering loop on the arena: the child's subtree joins the visited nodes. */
  lemma GatherStepNodes(orig: seq<Node>, before: seq<Node>, after: seq<Node>, kids: ChildLists, node: nat, j: nat)
    requires kids == ChildListsOf(orig) && WellFormed(kids) && node < |kids| && j < |kids[node]|
    requires StampedOn(before, orig, [node] + WalkPrefix(kids, node, j))
    requires StampedOn(after, before, Walk(kids, kids[node][j]))
    ensures StampedFrom(before, orig) && StampedFrom(after, before)
    ensures StampedOn(after, orig, [node] + WalkPrefix(kids, node, j + 1))
  {
    var visited := [node] + WalkPrefix(kids, node, j);
    StampedOnCompose(orig, before, after, visited, Walk(kids, kids[node][j]));
    assert visited + Walk(kids, kids[node][j]) == [node] + WalkPrefix(kids, node, j + 1);
  }

  /** Appending the tagged payloads of `sub`, read after earlier stamps, continues the tagged payloads of `done`. */
  lemma TaggedAppend(orig: seq<Node>, before: seq<Node>, done: seq<nat>, sub: seq<nat>,
                     drawInfos: seq<DrawInfo>, outBefore: seq<DrawInfo>, out: seq<DrawInfo>)
    requires StampedFrom(before, orig)
    requires forall k :: 0 <= k < |done| ==> done[k] < |orig| && orig[done[k]].drawInfo.Some?
    requires forall k :: 0 <= k < |sub| ==> sub[k] < |orig| && orig[sub[k]].drawInfo.Some?
    requires outBefore == drawInfos + Tagged(orig, done)
    requires out == outBefore + Tagged(before, sub)
    ensures out == drawInfos + Tagged(orig, done + sub)
  {
    TaggedIgnoresStamps(before, orig, sub);
    TaggedConcat(orig, done, sub);
    calc {
      out;
      (drawInfos + Tagged(orig, done)) + Tagged(orig, sub);
      drawInfos + (Tagged(orig, done) + Tagged(orig, sub));
    }
  }

  /** The nodes `own + CollectedPrefix(j + 1)` are those of `own + CollectedPrefix(j)` followed by child `j`'s. */
  lemma CollectedPrefixStep(kids: ChildLists, marks: seq<bool>, node: nat, j: nat)
    requires WellFormed(kids) && |marks| == |kids| && node < |kids| && j < |kids[node]|
    ensures var own := if marks[node] then [node] else [];
      own + CollectedPrefix(kids, marks, node, j + 1) ==
      (own + CollectedPrefix(kids, marks, node, j)) + Collected(kids, marks, kids[node][j])
  {
  }

  /** Nodes marked as carrying a payload do carry one. */
  lemma MarkedHavePayloads(ns: seq<Node>, marks: seq<bool>, c: seq<nat>)
    requires marks == PayloadMarks(ns)
    requires forall k :: 0 <= k < |c| ==> c[k] < |marks| && marks[c[k]]
    ensures forall k :: 0 <= k < |c| ==> c[k] < |ns| && ns[c[k]].drawInfo.Some?
  {
  }

  /** One step of the gathering loop on the output: the child's payloads follow those appended so far. */
  lemma GatherStepOut(orig: seq<Node>, before: seq<Node>, kids: ChildLists, marks: seq<bool>, node: nat, j: nat,
                      drawInfos: seq<DrawInfo>, outBefore: seq<DrawInfo>, out: seq<DrawInfo>)
    requires kids == ChildListsOf(orig) && marks == PayloadMarks(orig)
    requires WellFormed(kids) && node < |kids| && j < |kids[node]|
    requires StampedFrom(before, orig)
    requires outBefore == drawInfos + Tagged(orig, (if marks[node] then [node] else []) + CollectedPrefix(kids, marks, node, j))
    requires out == outBefore + Tagged(before, Collected(kids, marks, kids[node][j]))
    ensures out == drawInfos + Tagged(orig, (if marks[node] then [node] else []) + CollectedPrefix(kids, marks, node, j + 1))
  {
    var sub := Collected(kids, marks, kids[node][j]);
    var done := (if marks[node] then [node] else []) + CollectedPrefix(kids, marks, node, j);
    CollectedPrefixStep(kids, marks, node, j);
    MarkedHavePayloads(orig, marks, sub);
    TaggedAppend(orig, before, done, sub, drawInfos, outBefore, out);
  }

  /** The start of the gathering at `node`: its own payload, if any, is stamped and appended. */
  lemma GatherOwn(orig: seq<Node>, cur: seq<Node>, kids: ChildLists, marks: seq<bool>, node: nat,
                  drawInfos: seq<DrawInfo>, out: seq<DrawInfo>)
    requires kids == ChildListsOf(orig) && marks == PayloadMarks(orig)
    requires WellFormed(kids) && node < |kids|
    requires cur == orig[node := Stamp(orig[node], node)]
    requires out == drawInfos + if orig[node].drawInfo.Some? then [Stamp(orig[node], node).drawInfo.value] else []
    ensures ChildListsOf(cur) == kids && PayloadMarks(cur) == marks
    ensures StampedOn(cur, orig, [node] + WalkPrefix(kids, node, 0))
    ensures out == drawInfos + Tagged(orig, (if marks[node] then [node] else []) + CollectedPrefix(kids, marks, node, 0))
  {
    assert StampedFrom(cur, orig);
    StampedKeepsShape(cur, orig);
    var own := if marks[node] then [node] else [];
    assert own + CollectedPrefix(kids, marks, node, 0) == own;
    assert [node] + WalkPrefix(kids, node, 0) == [node];
  }

  /** The end of the gathering at `node`: all children done means the whole subtree is done. */
  lemma GatherDone(orig: seq<Node>, cur: seq<Node>, kids: ChildLists, marks: seq<bool>, node: nat, j: nat,
                   drawInfos: seq<DrawInfo>, out: seq<DrawInfo>)
    requires kids == ChildListsOf(orig) && marks == PayloadMarks(orig)
    requires WellFormed(kids) && node < |kids| && j == |kids[node]|
    requires StampedOn(cur, orig, [node] + WalkPrefix(kids, node, j))
    requires out == drawInfos + Tagged(orig, (if marks[node] then [node] else []) + CollectedPrefix(kids, marks, node, j))
    ensures StampedOn(cur, orig, Walk(kids, node))
    ensures out == drawInfos + Tagged(orig, Collected(kids, marks, node))
  {
  }

  /**
   * What gathering does: every node of the subtree of `i` gets its back-reference set and nothing
   * else changes, and the list grows by the payloads of the subtree in pre-order, each pointing
   * back at its own node.
   */
  lemma {:induction false} GatherMeaning(ns: seq<Node>, i: nat, out: seq<DrawInfo>)
    requires WellFormed(ChildListsOf(ns)) && i < |ns|
    ensures StampedOn(Gather(ns, i, out).0, ns, Walk(ChildListsOf(ns), i))
    ensures Gather(ns, i, out).1 == out + Tagged(ns, Collected(ChildListsOf(ns), PayloadMarks(ns), i))
    decreases |ns| - i, |ns[i].children| + 1
  {
    var kids, marks := ChildListsOf(ns), PayloadMarks(ns);
    var stamped := ns[i := Stamp(ns[i], i)];
    GatherOwn(ns, stamped, kids, marks, i, out, out + OwnEntry(ns, i));
    GatherKidsMeaning(ns, stamped, kids, marks, i, 0, out, out + OwnEntry(ns, i));
  }

  lemma {:induction false} GatherKidsMeaning(orig: seq<Node>, cur: seq<Node>, kids: ChildLists, marks: seq<bool>,
                                             i: nat, j: nat, drawInfos: seq<DrawInfo>, out: seq<DrawInfo>)
    requires kids == ChildListsOf(orig) && marks == PayloadMarks(orig)
    requires WellFormed(kids) && i < |kids| && j <= |kids[i]|
    requires ChildListsOf(cur) == kids && PayloadMarks(cur) == marks
    requires StampedOn(cur, orig, [i] + WalkPrefix(kids, i, j))
    requires out == drawInfos + Tagged(orig, (if marks[i] then [i] else []) + CollectedPrefix(kids, marks, i, j))
    ensures StampedOn(GatherKids(cur, i, j, out).0, orig, Walk(kids, i))
    ensures GatherKids(cur, i, j, out).1 == drawInfos + Tagged(orig, Collected(kids, marks, i))
    decreases |kids| - i, |kids[i]| - j
  {
    if j == |kids[i]| {
      GatherDone(orig, cur, kids, marks, i, j, drawInfos, out);
    } else {
      var next := Gather(cur, kids[i][j], out);
      GatherMeaning(cur, kids[i][j], out);
      GatherStepNodes(orig, cur, next.0, kids, i, j);
      GatherStepOut(orig, cur, kids, marks, i, j, drawInfos, out, next.1);
      StampedKeepsShape(next.0, cur);
      GatherKidsMeaning(orig, next.0, kids, marks, i, j + 1, drawInfos, next.1);
    }
  }

  class SceneGraph {
    /** The arena; a node's index is its identity. */
    var nodes: seq<Node>

    ghost predicate Valid()
      reads this
    {
      WellFormed(ChildListsOf(nodes))
    }

    constructor ()
      ensures Valid() && nodes == []
    {
      nodes := [];
    }

    /** `createNode(drawInfo)`: a fresh node, placed at the end of the arena. */
    method AddNode(drawInfo: Option<DrawInfo>) returns (id: nat)
      requires Valid()
      modifies this
      ensures Valid()
      ensures id == |old(nodes)| && nodes == old(nodes) + [CreateNode(drawInfo)]
    {
      id := |nodes|;
      nodes := nodes + [CreateNode(drawInfo)];
      assert ChildListsOf(nodes) == ChildListsOf(old(nodes)) + [[]];
    }

    /** `parent.children.push(child)`. */
    method AddChild(parent: nat, child: nat)
      requires Valid() && parent < child < |nodes|
      modifies this
      ensures Valid()
      ensures nodes == old(nodes)[parent := old(nodes)[parent].(children := old(nodes)[parent].children + [child])]
    {
      ghost var kids := ChildListsOf(nodes);
      nodes := nodes[parent := nodes[parent].(children := nodes[parent].children + [child])];
      assert ChildListsOf(nodes) == kids[parent := kids[parent] + [child]];
      PushChildKeepsWellFormed(kids, parent, child);
    }

    /** `node.localMatrix = m`, the per-frame write of a local matrix. */
    method SetLocalMatrix(node: nat, m: Mat4)
      requires Valid() && node < |nodes|
      modifies this
      ensures Valid()
      ensures nodes == old(nodes)[node := old(nodes)[node].(local := m)]
    {
      nodes := nodes[node := nodes[node].(local := m)];
      assert ChildListsOf(nodes) == ChildListsOf(old(nodes));
    }

    /**
     * `updateWorldMatrix(node, parentWorld)`: overwrite the node's world matrix, then recurse into
     * its children in order, handing each the node's world matrix.
     */
    method UpdateWorldMatrix(node: nat, parentWorld: Option<Mat4>)
      requires Valid() && node < |nodes|
      modifies this
      ensures Valid()
      ensures nodes == Propagate(old(nodes), node, parentWorld)
      decreases |nodes| - node
    {
      nodes := nodes[node := nodes[node].(world := ParentApply(parentWorld, nodes[node].local))];
      OnlyWorldsDifferKeepsShape(nodes, old(nodes));
      var j := 0;
      while j < |nodes[node].children|
        invariant Valid() && |nodes| == |old(nodes)| && node < |nodes|
        invariant nodes[node].children == old(nodes)[node].children
        invariant j <= |nodes[node].children|
        invariant PropagateKids(nodes, node, j) == Propagate(old(nodes), node, parentWorld)
      {
        ghost var before := nodes;
        UpdateWorldMatrix(nodes[node].children[j], Some(nodes[node].world));
        OnlyWorldsDifferKeepsShape(nodes, before);
        j := j + 1;
      }
    }

    /**
     * `gatherDrawInfo(node)`, appending to `drawInfos`: set the node's payload to point back at
     * the node and append it, then do the same for the children in order.
     */
    method GatherDrawInfo(node: nat, drawInfos: seq<DrawInfo>) returns (out: seq<DrawInfo>)
      requires Valid() && node < |nodes|
      modifies this
      ensures Valid()
      ensures (nodes, out) == Gather(old(nodes), node, drawInfos)
      ensures StampedOn(nodes, old(nodes), Walk(ChildListsOf(old(nodes)), node))
      ensures out == drawInfos + Tagged(old(nodes), Collected(ChildListsOf(old(nodes)), PayloadMarks(old(nodes)), node))
      decreases |nodes| - node
    {
      out := drawInfos;
      if nodes[node].drawInfo.Some? {
        var info := nodes[node].drawInfo.value.(node := Some(node));
        nodes := nodes[node := nodes[node].(drawInfo := Some(info))];
        out := out + [info];
      }
      assert nodes == old(nodes)[node := Stamp(old(nodes)[node], node)];
      assert out == drawInfos + OwnEntry(old(nodes), node);
      assert StampedFrom(nodes, old(nodes));
      StampedKeepsShape(nodes, old(nodes));
      var j := 0;
      while j < |nodes[node].children|
        invariant Valid() && node < |nodes| && j <= |nodes[node].children|
        invariant GatherKids(nodes, node, j, out) == Gather(old(nodes), node, drawInfos)
      {
        ghost var before := nodes;
        out := GatherDrawInfo(nodes[node].children[j], out);
        StampedKeepsShape(nodes, before);
        j := j + 1;
      }
      GatherMeaning(old(nodes), node, drawInfos);
    }

    /**
     * The draw pass over the gathered list: each entry is drawn with the view-projection matrix
     * times the world matrix of the node its back-reference names.
     */
    method WorldViewProjections(viewProjection: Mat4, drawInfos: seq<DrawInfo>) returns (ms: seq<Mat4>)
      requires forall k :: 0 <= k < |drawInfos| ==> drawInfos[k].node.Some? && drawInfos[k].node.value < |nodes|
      ensures |ms| == |drawInfos|
      ensures forall k :: 0 <= k < |drawInfos| ==> ms[k] == Mul(viewProjection, nodes[drawInfos[k].node.value].world)
    {
      ms := [];
      for k := 0 to |drawInfos|
        invariant |ms| == k
        invariant forall k' :: 0 <= k' < k ==> ms[k'] == Mul(viewProjection, nodes[drawInfos[k'].node.value].world)
      {
        ms := ms + [Mul(viewProjection, nodes[drawInfos[k].node.value].world)];
      }
    }
  }
}
