/**
 * The solar system of main.js built on the scene graph: five nodes chained as
 * sun -> earth orbit -> earth -> moon orbit -> moon, where the two orbit nodes carry no payload and
 * only shape the motion. `Build` is the start-up assembly and `DrawScene` one animation frame.
 */
module SolarSystem {
  import opened Wrappers
  import opened Matrix4
  import opened Hierarchy
  import opened SceneNodes
  import opened Propagation
  import opened Collection
  import opened SceneGraphs

  const Sun: nat := 0
  const EarthOrbit: nat := 1
  const Earth: nat := 2
  const MoonOrbit: nat := 3
  const Moon: nat := 4

  const SunColor: Color := RGBA(1.0, 0.8, 0.2, 1.0)
  const EarthColor: Color := RGBA(0.2, 0.5, 1.0, 1.0)
  const MoonColor: Color := RGBA(0.7, 0.7, 0.7, 1.0)

  /** The hierarchy assembled at start-up: each node has exactly the next one as its only child. */
  function Chain(): ChildLists {
    [[EarthOrbit], [Earth], [MoonOrbit], [Moon], []]
  }

  /** Which nodes of the solar system carry a payload: the sun, the earth and the moon. */
  function Drawables(): seq<bool> {
    [true, false, true, false, true]
  }

  /** The chain is acyclic and a tree. */
  lemma ChainIsTree()
    ensures WellFormed(Chain()) && IsTree(Chain())
  {
  }

  /** The pre-order walk from the sun goes down the chain. */
  lemma ChainWalk(kids: ChildLists)
    requires kids == Chain()
    ensures WellFormed(kids) && Walk(kids, Sun) == [Sun, EarthOrbit, Earth, MoonOrbit, Moon]
  {
    ChainWalkBelow(kids);
    assert WalkPrefix(kids, Sun, 1) == [] + Walk(kids, EarthOrbit);
    assert Walk(kids, Sun) == [Sun] + WalkPrefix(kids, Sun, 1);
  }

  /** Below the sun, the walk visits the earth orbit, the earth, the moon orbit and the moon. */
  lemma ChainWalkBelow(kids: ChildLists)
    requires kids == Chain()
    ensures WellFormed(kids) && Walk(kids, EarthOrbit) == [EarthOrbit, Earth, MoonOrbit, Moon]
  {
    ChainWalkMoons(kids);
    assert WalkPrefix(kids, Earth, 1) == [] + Walk(kids, MoonOrbit);
    assert Walk(kids, Earth) == [Earth] + WalkPrefix(kids, Earth, 1);
    assert WalkPrefix(kids, EarthOrbit, 1) == [] + Walk(kids, Earth);
    assert Walk(kids, EarthOrbit) == [EarthOrbit] + WalkPrefix(kids, EarthOrbit, 1);
  }

  /** Below the earth, the walk visits the moon orbit and the moon. */
  lemma ChainWalkMoons(kids: ChildLists)
    requires kids == Chain()
    ensures WellFormed(kids) && Walk(kids, MoonOrbit) == [MoonOrbit, Moon]
  {
    ChainIsTree();
    assert Walk(kids, Moon) == [Moon] + WalkPrefix(kids, Moon, 0);
    assert WalkPrefix(kids, MoonOrbit, 1) == [] + Walk(kids, Moon);
    assert Walk(kids, MoonOrbit) == [MoonOrbit] + WalkPrefix(kids, MoonOrbit, 1);
  }

  /** Gathering from the sun yields the sun, the earth and the moon, in that order; the orbits are skipped. */
  lemma ChainCollected(kids: ChildLists, marks: seq<bool>)
    requires kids == Chain() && marks == Drawables()
    ensures WellFormed(kids) && Collected(kids, marks, Sun) == [Sun, Earth, Moon]
  {
    ChainCollectedBelow(kids, marks);
    assert CollectedPrefix(kids, marks, Sun, 1) == [] + Collected(kids, marks, EarthOrbit);
    assert Collected(kids, marks, Sun) == [Sun] + CollectedPrefix(kids, marks, Sun, 1);
  }

  /** Below the sun, gathering yields the earth and the moon. */
  lemma ChainCollectedBelow(kids: ChildLists, marks: seq<bool>)
    requires kids == Chain() && marks == Drawables()
    ensures WellFormed(kids) && Collected(kids, marks, EarthOrbit) == [Earth, Moon]
  {
    ChainCollectedMoons(kids, marks);
    assert CollectedPrefix(kids, marks, Earth, 1) == [] + Collected(kids, marks, MoonOrbit);
    assert Collected(kids, marks, Earth) == [Earth] + CollectedPrefix(kids, marks, Earth, 1);
    assert CollectedPrefix(kids, marks, EarthOrbit, 1) == [] + Collected(kids, marks, Earth);
    assert Collected(kids, marks, EarthOrbit) == [] + CollectedPrefix(kids, marks, EarthOrbit, 1);
  }

  /** Below the earth, gathering yields the moon alone. */
  lemma ChainCollectedMoons(kids: ChildLists, marks: seq<bool>)
    requires kids == Chain() && marks == Drawables()
    ensures WellFormed(kids) && Collected(kids, marks, MoonOrbit) == [Moon]
  {
    ChainIsTree();
    assert Collected(kids, marks, Moon) == [Moon] + CollectedPrefix(kids, marks, Moon, 0);
    assert CollectedPrefix(kids, marks, MoonOrbit, 1) == [] + Collected(kids, marks, Moon);
    assert Collected(kids, marks, MoonOrbit) == [] + CollectedPrefix(kids, marks, MoonOrbit, 1);
  }

  /**
   * The solar system as assembled: the chain hierarchy, payloads exactly on the sun, the earth and
   * the moon, with their colours. Back-references and matrices may be anything.
   */
  ghost predicate Assembled(ns: seq<Node>) {
    |ns| == 5 && ChildListsOf(ns) == Chain() && PayloadMarks(ns) == Drawables() &&
    ns[Sun].drawInfo.value.color == SunColor &&
    ns[Earth].drawInfo.value.color == EarthColor &&
    ns[Moon].drawInfo.value.color == MoonColor
  }

  /** The arena right after start-up: fresh nodes, payloads without back-references, chained by the pushes. */
  function Initial(): (ns: seq<Node>)
    ensures |ns| == 5
  {
    [ CreateNode(Some(DrawInfo(SunColor, None))).(children := [EarthOrbit]),
      CreateNode(None).(children := [Earth]),
      CreateNode(Some(DrawInfo(EarthColor, None))).(children := [MoonOrbit]),
      CreateNode(None).(children := [Moon]),
      CreateNode(Some(DrawInfo(MoonColor, None))) ]
  }

  /**
   * The start-up arena is the solar system: a tree chained from the sun, payloads on the sun, the
   * earth and the moon with no back-reference yet, and identity matrices everywhere.
   */
  lemma InitialAssembled()
    ensures Assembled(Initial()) && WellFormed(ChildListsOf(Initial())) && IsTree(ChildListsOf(Initial()))
    ensures forall n :: 0 <= n < 5 ==> Initial()[n].local == Identity() && Initial()[n].world == Identity()
    ensures forall n :: 0 <= n < 5 && Initial()[n].drawInfo.Some? ==> Initial()[n].drawInfo.value.node == None
  {
    assert ChildListsOf(Initial()) == Chain();
    assert PayloadMarks(Initial()) == Drawables();
    ChainIsTree();
  }

  /**
   * Start-up: create the five nodes (payloads on the sun, the earth and the moon only) and push each
   * onto the child list of the one before.
   */
  method Build() returns (scene: SceneGraph)
    ensures fresh(scene) && scene.Valid() && scene.nodes == Initial()
  {
    scene := new SceneGraph();
    var sun := scene.AddNode(Some(DrawInfo(SunColor, None)));
    var earthOrbit := scene.AddNode(None);
    var earth := scene.AddNode(Some(DrawInfo(EarthColor, None)));
    var moonOrbit := scene.AddNode(None);
    var moon := scene.AddNode(Some(DrawInfo(MoonColor, None)));
    ghost var created := scene.nodes;
    assert sun == Sun && earthOrbit == EarthOrbit && earth == Earth && moonOrbit == MoonOrbit && moon == Moon;
    scene.AddChild(sun, earthOrbit);
    scene.AddChild(earthOrbit, earth);
    scene.AddChild(earth, moonOrbit);
    scene.AddChild(moonOrbit, moon);
    assert scene.nodes == Linked(created);
    LinkedCreated(created);
  }

  /** The arena after the four start-up pushes, each node pushed onto the child list of the one before. */
  function Linked(ns: seq<Node>): (linked: seq<Node>)
    requires |ns| == 5
    ensures |linked| == 5
  {
    var a := ns[Sun := ns[Sun].(children := ns[Sun].children + [EarthOrbit])];
    var b := a[EarthOrbit := a[EarthOrbit].(children := a[EarthOrbit].children + [Earth])];
    var c := b[Earth := b[Earth].(children := b[Earth].children + [MoonOrbit])];
    c[MoonOrbit := c[MoonOrbit].(children := c[MoonOrbit].children + [Moon])]
  }

  /** Pushing the chain onto the five freshly created nodes gives the start-up scene. */
  lemma LinkedCreated(ns: seq<Node>)
    requires |ns| == 5
    requires ns[Sun] == CreateNode(Some(DrawInfo(SunColor, None))) && ns[EarthOrbit] == CreateNode(None)
    requires ns[Earth] == CreateNode(Some(DrawInfo(EarthColor, None))) && ns[MoonOrbit] == CreateNode(None)
    requires ns[Moon] == CreateNode(Some(DrawInfo(MoonColor, None)))
    ensures Linked(ns) == Initial()
  {
    var linked := Linked(ns);
    assert linked[Sun] == Initial()[Sun] && linked[EarthOrbit] == Initial()[EarthOrbit];
    assert linked[Earth] == Initial()[Earth] && linked[MoonOrbit] == Initial()[MoonOrbit];
  }

  /**
   * The local matrices of one frame at `timeMs` milliseconds: each body spins about the y axis at its
   * own rate, and the two orbit nodes also carry the body 10 (earth) or 2 (moon) units outwards.
   * `rotationY` stands for the rendering library's rotation about the y axis.
   */
  function FrameLocals(timeMs: real, rotationY: real -> Mat4): (ls: seq<Mat4>)
    ensures |ls| == 5
  {
    var time := timeMs * 0.001;
    [ rotationY(time * 0.1),
      Translate(rotationY(time * 0.2), 10.0, 0.0, 0.0),
      rotationY(time * 2.0),
      Translate(rotationY(time * 1.5), 2.0, 0.0, 0.0),
      rotationY(time * -3.0) ]
  }

  /**
   * Each orbit node's local matrix is its rotation with the origin moved outwards: the first three
   * columns are the rotation's, and the last column is where the rotation sends the point at
   * distance 10 (earth orbit) or 2 (moon orbit) along the x axis.
   */
  lemma OrbitOffsets(timeMs: real, rotationY: real -> Mat4)
    ensures var ls, time := FrameLocals(timeMs, rotationY), timeMs * 0.001;
      var earthSpin, moonSpin := rotationY(time * 0.2), rotationY(time * 1.5);
      (forall r: nat, c: nat :: r < 4 && c < 3 ==>
         At(ls[EarthOrbit], r, c) == At(earthSpin, r, c) && At(ls[MoonOrbit], r, c) == At(moonSpin, r, c)) &&
      (forall r: nat :: r < 4 ==>
         At(ls[EarthOrbit], r, 3) == 10.0 * At(earthSpin, r, 0) + At(earthSpin, r, 3) &&
         At(ls[MoonOrbit], r, 3) == 2.0 * At(moonSpin, r, 0) + At(moonSpin, r, 3))
  {
  }

  /** The entries gathered every frame: the sun, the earth and the moon, each pointing back at its own node. */
  function SolarEntries(): seq<DrawInfo> {
    [DrawInfo(SunColor, Some(Sun)), DrawInfo(EarthColor, Some(Earth)), DrawInfo(MoonColor, Some(Moon))]
  }

  /**
   * Every body is placed along the chain: the sun's world matrix is its local matrix and each further
   * node's is its parent's world matrix times its own local matrix.
   */
  ghost predicate PlacedAlongChain(ns: seq<Node>) {
    |ns| == 5 &&
    ns[Sun].world == ns[Sun].local &&
    ns[EarthOrbit].world == Mul(ns[Sun].world, ns[EarthOrbit].local) &&
    ns[Earth].world == Mul(ns[EarthOrbit].world, ns[Earth].local) &&
    ns[MoonOrbit].world == Mul(ns[Earth].world, ns[MoonOrbit].local) &&
    ns[Moon].world == Mul(ns[MoonOrbit].world, ns[Moon].local)
  }

  /** Every entry points back at a node of `ns` whose payload is that very entry. */
  ghost predicate StoresEntries(ns: seq<Node>, ds: seq<DrawInfo>) {
    forall k :: 0 <= k < |ds| ==>
      ds[k].node.Some? && ds[k].node.value < |ns| && ns[ds[k].node.value].drawInfo == Some(ds[k])
  }

  /**
   * Updating the world matrices from the sun places every body along the chain, so the moon's world
   * matrix composes all five locals in chain order. Nothing but world matrices changes.
   */
  lemma FramePlaced(ns: seq<Node>)
    requires Assembled(ns)
    ensures WellFormed(ChildListsOf(ns))
    ensures var p := Propagate(ns, Sun, None);
      Assembled(p) && OnlyWorldsDiffer(p, ns) && PlacedAlongChain(p)
  {
    ChainIsTree();
    ChainWalk(ChildListsOf(ns));
    var p := Propagate(ns, Sun, None);
    OnlyWorldsDifferKeepsShape(p, ns);
    PropagateRoot(ns, Sun, None);
    PropagateConsistent(ns, Sun, None);
    assert Consistent(p, Sun) && Consistent(p, EarthOrbit) && Consistent(p, Earth) && Consistent(p, MoonOrbit);
    assert p[Sun].drawInfo == ns[Sun].drawInfo && p[Earth].drawInfo == ns[Earth].drawInfo && p[Moon].drawInfo == ns[Moon].drawInfo;
  }

  /**
   * Gathering from the sun lists the sun, the earth and the moon, in that order and each pointing
   * back at its own node, and stores those same entries in the nodes; matrices are untouched.
   */
  lemma FrameGathered(ns: seq<Node>)
    requires Assembled(ns)
    ensures WellFormed(ChildListsOf(ns))
    ensures var g := Gather(ns, Sun, []);
      Assembled(g.0) && g.1 == SolarEntries() && StoresEntries(g.0, g.1) &&
      forall n :: 0 <= n < 5 ==> g.0[n].local == ns[n].local && g.0[n].world == ns[n].world
  {
    ChainIsTree();
    var g := Gather(ns, Sun, []);
    GatheredEntries(ns);
    GatheredNodes(ns);
    assert g.0[Sun].drawInfo == Some(g.1[0]);
    assert g.0[Earth].drawInfo == Some(g.1[1]);
    assert g.0[Moon].drawInfo == Some(g.1[2]);
  }

  /**
   * One frame's two passes over a posed scene: the bodies end up placed along the chain with their
   * local matrices untouched, and the gathered entries are the sun, the earth and the moon, in that
   * order, each stored in the node it points back at.
   */
  lemma FrameResult(ns: seq<Node>)
    requires Assembled(ns)
    ensures WellFormed(ChildListsOf(ns)) && WellFormed(ChildListsOf(Propagate(ns, Sun, None)))
    ensures var g := Gather(Propagate(ns, Sun, None), Sun, []);
      Assembled(g.0) && PlacedAlongChain(g.0) && g.1 == SolarEntries() && StoresEntries(g.0, g.1) &&
      forall n :: 0 <= n < 5 ==> g.0[n].local == ns[n].local
  {
    FramePlaced(ns);
    var p := Propagate(ns, Sun, None);
    OnlyWorldsDifferKeepsShape(p, ns);
    FrameGathered(p);
  }

  lemma GatheredEntries(ns: seq<Node>)
    requires Assembled(ns)
    ensures WellFormed(ChildListsOf(ns))
    ensures Gather(ns, Sun, []).1 == SolarEntries()
  {
    ChainCollected(ChildListsOf(ns), PayloadMarks(ns));
    GatherMeaning(ns, Sun, []);
    var t := Tagged(ns, [Sun, Earth, Moon]);
    assert Gather(ns, Sun, []).1 == [] + t;
    assert t[0] == DrawInfo(SunColor, Some(Sun));
    assert t[1] == DrawInfo(EarthColor, Some(Earth));
    assert t[2] == DrawInfo(MoonColor, Some(Moon));
  }

  lemma GatheredNodes(ns: seq<Node>)
    requires Assembled(ns)
    ensures WellFormed(ChildListsOf(ns))
    ensures var g := Gather(ns, Sun, []); |g.0| == 5 && forall n :: 0 <= n < 5 ==> g.0[n] == Stamp(ns[n], n)
  {
    ChainIsTree();
    ChainWalk(ChildListsOf(ns));
    GatherMeaning(ns, Sun, []);
    var w := Walk(ChildListsOf(ns), Sun);
    assert w == [Sun, EarthOrbit, Earth, MoonOrbit, Moon];
    assert w[Sun] == Sun && w[EarthOrbit] == EarthOrbit && w[Earth] == Earth && w[MoonOrbit] == MoonOrbit && w[Moon] == Moon;
    forall n | 0 <= n < 5
      ensures n in w
    {
      assert n == Sun || n == EarthOrbit || n == Earth || n == MoonOrbit || n == Moon;
    }
  }

  /** The scene with the five local matrices of a frame written in, sun first. */
  function Posed(ns: seq<Node>, ls: seq<Mat4>): (posed: seq<Node>)
    requires |ns| == 5 && |ls| == 5
    ensures |posed| == 5
  {
    ns[Sun := ns[Sun].(local := ls[Sun])]
      [EarthOrbit := ns[EarthOrbit].(local := ls[EarthOrbit])]
      [Earth := ns[Earth].(local := ls[Earth])]
      [MoonOrbit := ns[MoonOrbit].(local := ls[MoonOrbit])]
      [Moon := ns[Moon].(local := ls[Moon])]
  }

  /** Writing the local matrices keeps the solar system assembled, and every body gets its own local matrix. */
  lemma PosedAssembled(ns: seq<Node>, ls: seq<Mat4>)
    requires Assembled(ns) && |ls| == 5
    ensures Assembled(Posed(ns, ls))
    ensures forall n :: 0 <= n < 5 ==> Posed(ns, ls)[n].local == ls[n]
  {
    var posed := Posed(ns, ls);
    assert ChildListsOf(posed) == Chain() && PayloadMarks(posed) == Drawables();
  }

  /**
   * One animation frame: write the local matrices, update the world matrices from the sun, gather the
   * drawables and compute the matrix each is drawn with. `viewProjection` is the fixed camera and
   * projection product.
   */
  method DrawScene(scene: SceneGraph, timeMs: real, rotationY: real -> Mat4, viewProjection: Mat4)
    returns (drawInfos: seq<DrawInfo>, transforms: seq<Mat4>)
    requires scene.Valid() && Assembled(scene.nodes)
    modifies scene
    ensures scene.Valid() && Assembled(scene.nodes)
    ensures forall n :: 0 <= n < 5 ==> scene.nodes[n].local == FrameLocals(timeMs, rotationY)[n]
    ensures PlacedAlongChain(scene.nodes)
    ensures drawInfos == SolarEntries() && StoresEntries(scene.nodes, drawInfos)
    ensures |transforms| == |drawInfos| &&
      forall k :: 0 <= k < |drawInfos| ==> transforms[k] == Mul(viewProjection, scene.nodes[drawInfos[k].node.value].world)
  {
    var ls := FrameLocals(timeMs, rotationY);
    scene.SetLocalMatrix(Sun, ls[Sun]);
    scene.SetLocalMatrix(EarthOrbit, ls[EarthOrbit]);
    scene.SetLocalMatrix(Earth, ls[Earth]);
    scene.SetLocalMatrix(MoonOrbit, ls[MoonOrbit]);
    scene.SetLocalMatrix(Moon, ls[Moon]);
    ghost var posed := Posed(old(scene.nodes), ls);
    assert scene.nodes == posed;
    PosedAssembled(old(scene.nodes), ls);
    FrameResult(posed);

    scene.UpdateWorldMatrix(Sun, None);
    drawInfos := scene.GatherDrawInfo(Sun, []);
    transforms := scene.WorldViewProjections(viewProjection, drawInfos);
  }
}
