/**
 * Scene nodes as created by `createNode` in main.js. A node lives in an arena (a sequence of
 * nodes) and refers to its children by index.
 */
module SceneNodes {
  import opened Wrappers
  import opened Matrix4
  import opened Hierarchy

  /** The `u_color` uniform a drawable carries. */
  datatype Color = RGBA(r: real, g: real, b: real, a: real)

  /**
   * The drawing payload of a node: its colour and the back-reference to the node that owns it,
   * which stays unset until the drawables are gathered.
   */
  datatype DrawInfo = DrawInfo(color: Color, node: Option<nat>)

  datatype Node = Node(local: Mat4, world: Mat4, children: seq<nat>, drawInfo: Option<DrawInfo>)

  /** A fresh node: identity local and world matrices, no children, and the given (possibly absent) payload. */
  function CreateNode(drawInfo: Option<DrawInfo>): (n: Node)
    ensures n.local == Identity() && n.world == Identity()
    ensures n.children == [] && n.drawInfo == drawInfo
  {
    Node(Identity(), Identity(), [], drawInfo)
  }

  /** The hierarchy of an arena: the child list of every node. */
  function ChildListsOf(ns: seq<Node>): (kids: ChildLists)
    ensures |kids| == |ns| && forall n :: 0 <= n < |ns| ==> kids[n] == ns[n].children
  {
    seq(|ns|, n requires 0 <= n < |ns| => ns[n].children)
  }

  /** Which nodes of an arena carry a payload. */
  function PayloadMarks(ns: seq<Node>): (marks: seq<bool>)
    ensures |marks| == |ns| && forall n :: 0 <= n < |ns| ==> marks[n] == ns[n].drawInfo.Some?
  {
    seq(|ns|, n requires 0 <= n < |ns| => ns[n].drawInfo.Some?)
  }
}
