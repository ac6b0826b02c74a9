# Solar-system scene graph, modelled in Dafny

This project models the scene graph in `main.js` of the WebGL solar-system demo, and proves properties of that model.

The scene graph is a tree of nodes. Each node has:
- a local matrix;
- a world matrix;
- an ordered list of children;
- an optional drawing payload (`drawInfo`).

Every frame the demo does four things:
1. It writes the local matrices.
2. `updateWorldMatrix` walks the tree from the sun in pre-order. It gives the root its own local matrix as its world matrix, and gives every child its parent's world matrix times its own local matrix.
3. `gatherDrawInfo` walks the tree again. It appends the payload of every node that has one, after pointing that payload's `node` field back at the node.
4. Each gathered entry is drawn with the view-projection matrix times its node's world matrix.

The hierarchy is built once, by pushes. The chain is sun → earth orbit → earth → moon orbit → moon. The two orbit nodes carry no payload; they only shape the motion.

Modules:
- `Matrix4` (`matrix.dfy`): exact 4×4 matrices, column-major as in the rendering library. It provides the product, the identity and `translate`.
- `Hierarchy` (`hierarchy.dfy`): child lists over an arena of nodes addressed by index. It defines:
  - acyclicity (`WellFormed`: a child's index is larger than its parent's);
  - the forest condition (`IsTree`);
  - the pre-order walk `Walk`;
  - downward paths.
- `SceneNodes` (`nodes.dfy`): the node record and `createNode`.
- `Propagation` (`propagation.dfy`): `Propagate`, a function that mirrors `updateWorldMatrix`, and what it guarantees.
- `Collection` (`collection.dfy`): `Collected`, the list of nodes whose payloads `gatherDrawInfo` appends, in order, and what it guarantees.
- `SceneGraphs` (`scene_graph.dfy`):
  - the class `SceneGraph`, which holds the arena and updates it in place through the source's operations;
  - the function `Gather`, which mirrors `gatherDrawInfo`, including the back-references it writes.

  `UpdateWorldMatrix` and `GatherDrawInfo` are proved equal to their mirror functions, `Propagate` and `Gather`, and `AddNode` appends a node built by `CreateNode`. The other methods state their new state or results directly.
- `SolarSystem` (`solar_system.dfy`): the five-node scene, its start-up assembly and one animation frame.

Three facts about `main.js` shape the model:
- Gathering writes `drawInfo.node = node` into each payload, so it changes the scene.
- Nodes have no names and no parent link, and `children.push` has no error path.
- Local matrices are computed from the frame timestamp, scaled by fixed rates.

## Model

| member | source | states |
|---|---|---|
| SceneNodes.CreateNode | main.js:42-49 | A new node has identity local and world matrices, no children, and exactly the payload it was given (possibly none). |
| Matrix4.Identity | main.js:44-45 | The identity matrix has ones on the diagonal and zeros elsewhere. |
| Matrix4.Mul | main.js:54 | Entry (r, c) of the product of a parent matrix and a local matrix is row r of the first times column c of the second. |
| Matrix4.MulIdentityLeft | main.js:53-57 | Multiplying a local matrix by an identity parent matrix gives the local matrix back. So copying the local matrix (the no-parent branch) agrees with multiplying under an identity parent. |
| Matrix4.MulIdentityRight | main.js:44 | An identity local matrix passes the parent's world matrix through unchanged. |
| Matrix4.Translation | main.js:110 | The translation matrix is the identity except for the offset `(x, y, z)` in its last column. |
| Matrix4.Translate | main.js:110 | `translate(m, v)` keeps the first three columns of `m`. Its last column is `m` applied to the point `(x, y, z, 1)`. |
| Hierarchy.WalkNoDuplicates | main.js:58 | In a forest, the recursive descent from a node visits each node of its subtree exactly once. |
| Hierarchy.ReachedByPath | main.js:58 | Every node the descent visits is reached from the start node by a chain of parent-to-child links. |
| Hierarchy.PathStaysInWalk | main.js:58 | Conversely, every node reachable by parent-to-child links is visited by the descent. |
| Hierarchy.WalkPrefixMember | main.js:58 | A node is reached through the first `j` children exactly when it lies in the subtree of one of them. |
| Hierarchy.SiblingsDisjoint | main.js:58 | In a forest, the subtrees of two different children of one node share no node. |
| Hierarchy.PushChildKeepsWellFormed | main.js:80-83 | Pushing a later-created node onto a child list keeps the hierarchy acyclic. |
| Hierarchy.PushChildKeepsTree | main.js:80-83 | Pushing a node that has no parent yet onto a child list keeps the hierarchy a forest. |
| Propagation.Propagate | main.js:52-59 | The world-matrix pass changes world matrices only: locals, child lists and payloads are untouched. |
| Propagation.PropagateRoot | main.js:53-57 | After the pass from `i`, node `i`'s world matrix is its local matrix when no parent matrix is given, and otherwise the parent matrix times its local matrix. |
| Propagation.PropagateFrame | main.js:52-59 | Nodes outside the subtree of the start node keep their old state. |
| Propagation.PropagateConsistent | main.js:52-59 | In a forest, after the pass every visited node's children hold that node's new world matrix times their own local matrix. |
| Propagation.PropagateKidsConsistent | main.js:58 | In a forest, after the loop over the children from position `j` on, each of those children holds the parent's world matrix times its own local matrix, and their subtrees are consistent. |
| Propagation.WorldIsPathComposition | main.js:52-59 | In a forest, after the pass the world matrix at the end of any downward path is the composition, root first, of the local matrices along the path. |
| Propagation.RootIsChildOfIdentity | main.js:53-57 | Starting the pass with no parent matrix gives the same scene as starting it under the identity matrix. |
| Propagation.FreshNodeInheritsParentWorld | main.js:42-59 | A freshly created node receives exactly its parent's world matrix, or the identity at the root. |
| Collection.Collected | main.js:121-127 | Every appended entry is a node that carries a payload, at an index no lower than the start node's. |
| Collection.CollectedIsMarkedWalk | main.js:121-127 | The appended nodes are the pre-order walk with payload-less nodes dropped. A payload-less node contributes nothing, but its children are still visited. |
| Collection.CollectedMembers | main.js:122-126 | A node is appended exactly when it is in the subtree and carries a payload. |
| Collection.CollectedExactlyOnce | main.js:122-126 | In a forest, no node is appended twice. |
| Collection.ParentBeforeDescendants | main.js:122-126 | A node's entry comes before the entries of all its descendants. |
| Collection.SiblingsInChildOrder | main.js:126 | Every entry from an earlier child's subtree comes before every entry from a later child's subtree. |
| SceneGraphs.Stamp | main.js:123 | Stamping sets only the payload's back-reference, to the node itself. Nodes without a payload are unchanged. |
| SceneGraphs.OwnEntry | main.js:122-125 | A node appends one entry exactly when it has a payload. The entry has the payload's colour and points back at the node. |
| SceneGraphs.Gather | main.js:121-127 | Gathering changes nothing but back-references, and each of those is set to its own node. |
| SceneGraphs.GatherMeaning | main.js:121-127 | After gathering from `i`, exactly the subtree of `i` has its back-references set. The list has grown by the subtree's payloads in collection order, each pointing back at its own node. |
| SceneGraphs.GatherKidsMeaning | main.js:126 | Continuing the loop over the children from position `j` finishes the whole subtree: all of it is stamped, and the list grows by everything the node collects. |
| SceneGraphs.SceneGraph.AddNode | main.js:73-77 | Creating a node appends a fresh node to the scene and returns its index. The rest of the scene stays as it was. |
| SceneGraphs.SceneGraph.AddChild | main.js:80-83 | A push appends the child to the parent's child list and changes nothing else. The scene stays acyclic. |
| SceneGraphs.SceneGraph.SetLocalMatrix | main.js:108-114 | Writing a local matrix changes that node's local matrix and nothing else. |
| SceneGraphs.SceneGraph.UpdateWorldMatrix | main.js:52-59 | The in-place recursive pass leaves the scene equal to `Propagate`, whose properties are the lemmas above. |
| SceneGraphs.SceneGraph.GatherDrawInfo | main.js:121-127 | The in-place recursive pass leaves the scene and the list equal to `Gather`. So exactly the subtree's back-references are set, and the list grows by the subtree's payloads in pre-order. |
| SceneGraphs.SceneGraph.WorldViewProjections | main.js:131-141 | Each gathered entry is drawn with the view-projection matrix times the world matrix of the node its back-reference names. |
| SolarSystem.ChainIsTree | main.js:80-83 | The pushes at start-up build an acyclic tree. |
| SolarSystem.ChainWalk | main.js:80-83 | The walk from the sun visits the sun, earth orbit, earth, moon orbit and moon, in that order. |
| SolarSystem.ChainCollected | main.js:73-83 | Gathering from the sun lists the sun, the earth and the moon, in that order. The orbit nodes are skipped, but their children are still reached. |
| SolarSystem.InitialAssembled | main.js:62-83 | The start-up scene is a tree chained from the sun, with identity matrices. It has payloads on the sun, earth and moon in their colours, and no back-references yet. |
| SolarSystem.Build | main.js:73-83 | Start-up produces exactly that scene. |
| SolarSystem.LinkedCreated | main.js:73-83 | Pushing each of the five created nodes onto the child list of the one before turns the fresh nodes into the start-up scene. |
| SolarSystem.OrbitOffsets | main.js:108-114 | Each orbit node's local matrix keeps its rotation's first three columns. Its last column is where the rotation sends the point 10 units (earth orbit) or 2 units (moon orbit) out along the x axis. |
| SolarSystem.PosedAssembled | main.js:108-114 | Writing the five local matrices keeps the hierarchy and the payloads of the solar system, and each node ends up with its own new local matrix. |
| SolarSystem.FramePlaced | main.js:117 | After the pass from the sun, the sun's world matrix is its local matrix, and each further node's is its parent's world matrix times its own local matrix. So the moon's world matrix composes all five locals in chain order. Only world matrices change. |
| SolarSystem.GatheredEntries | main.js:120-128 | Gathering from the sun into an empty list yields the sun, earth and moon entries, in that order, in their colours and each pointing back at its own node. |
| SolarSystem.GatheredNodes | main.js:123 | Gathering from the sun sets the back-reference of every body that carries a payload, and changes nothing else in any of the five nodes. |
| SolarSystem.FrameGathered | main.js:120-128 | Gathering from the sun yields the sun, earth and moon entries in that order, each pointing back at its own node and equal to the payload stored in that node. Matrices are untouched. |
| SolarSystem.FrameResult | main.js:116-128 | After both passes, the bodies are placed along the chain with their local matrices untouched. The gathered entries are the sun, earth and moon, in that order, each stored in the node it points back at. |
| SolarSystem.DrawScene | main.js:98-141 | One frame writes the five local matrices at the rates and offsets of the source, then places every body along the chain. Its three drawables are drawn, sun, earth and moon in that order, each with the view-projection matrix times its own body's world matrix. |

## Left out

- Floating point: the rendering library computes in 32-bit floats. The model uses exact real arithmetic, so rounding is not modelled.
- Matrices are values. The library's in-place `multiply` and `copy` into the node's existing world-matrix buffer become the replacement of that matrix. In the source no two nodes share a matrix buffer, so this loses nothing observable.
- Trigonometric content: `m4.rotationY` is a parameter of `DrawScene` and `FrameLocals`, so no property of rotation matrices is used. The camera's `perspective`, `lookAt` and `inverse` are not modelled either: their product `viewProjection` is a parameter.
- Payloads are values stored inside their nodes. In the source, a list entry and the node's payload are the same object. The model instead proves that they are equal after gathering (`FrameGathered`), and does not model later mutation through that shared reference. Two nodes sharing one payload object are not modelled.
- The payloads' `programInfo` and `bufferInfo` handles are not modelled: they are the same for every body and are consumed only by WebGL. All WebGL calls, canvas resizing, shaders.js and the shader sources are left out too.
- The `requestAnimationFrame` loop is left out: `DrawScene` models one frame, and its timestamp is a parameter.
- `drawInfos` is a fresh empty list per frame. `GatherDrawInfo` takes the list it appends to as a parameter, and `DrawScene` passes the empty list.
- SceneGraphs.SceneGraph.AddChild: it requires the child to have been created after the parent (`parent < child`), which the source does not check. This index order is how the model keeps the hierarchy acyclic, and every push in `main.js` satisfies it. Pushing an arbitrary earlier node, which could create a cycle, is not modelled.
- Propagation.PropagateConsistent, Propagation.WorldIsPathComposition and Collection.CollectedExactlyOnce assume a forest (`IsTree`). In a shared-child graph, a node would be updated once per parent and keep the last parent's product, and its payload would be gathered once per parent. The operations themselves are modelled for every hierarchy in which each child's index is larger than its parent's (`WellFormed`).
