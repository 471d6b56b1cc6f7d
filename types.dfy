/** The records of the mind-map editor: positions, text formatting, anchors,
    connections, nodes, the whole map and the drag state. Field names follow
    the system's own record types. */
module Types {

  datatype Option<+T> = None | Some(value: T)

  /** Node and connection ids (uuids in the running system). */
  type Id = string

  /** A JavaScript truthiness test on an optional id: null and the empty
      string are false. */
  predicate Truthy(o: Option<Id>) {
    o.Some? && o.value != ""
  }

  datatype Position = Position(x: real, y: real)

  function Add(p: Position, q: Position): Position {
    Position(p.x + q.x, p.y + q.y)
  }

  function Sub(p: Position, q: Position): Position {
    Position(p.x - q.x, p.y - q.y)
  }

  /** Real multiplication. Every product of the geometry goes through this
      function, so that facts about a product are facts about one term. */
  function Mul(a: real, b: real): real { a * b }

  lemma MulPos(a: real, b: real)
    requires a > 0.0 && b > 0.0
    ensures Mul(a, b) > 0.0
  {
  }

  lemma MulNonNeg(a: real, b: real)
    requires a >= 0.0 && b >= 0.0
    ensures Mul(a, b) >= 0.0
  {
  }

  lemma MulNeg(a: real, b: real)
    ensures Mul(-a, -b) == Mul(a, b)
  {
  }

  lemma MulStep(a: real, b: real)
    ensures Mul(a + 1.0, b) == Mul(a, b) + b
  {
  }

  lemma SquarePos(a: real)
    requires a != 0.0
    ensures Mul(a, a) > 0.0
  {
    if a > 0.0 {
      MulPos(a, a);
    } else {
      MulPos(-a, -a);
      MulNeg(a, a);
    }
  }

  lemma SquareNonNeg(a: real)
    ensures Mul(a, a) >= 0.0
  {
    if a >= 0.0 {
      MulNonNeg(a, a);
    } else {
      MulNonNeg(-a, -a);
      MulNeg(a, a);
    }
  }

  function Scale(t: real, p: Position): Position {
    Position(Mul(t, p.x), Mul(t, p.y))
  }

  function Dot(u: Position, v: Position): real {
    Mul(u.x, v.x) + Mul(u.y, v.y)
  }

  /** The squared length of a vector. */
  function Norm2(u: Position): real {
    Mul(u.x, u.x) + Mul(u.y, u.y)
  }

  lemma Norm2NonNeg(u: Position)
    ensures Norm2(u) >= 0.0
  {
    SquareNonNeg(u.x);
    SquareNonNeg(u.y);
  }

  /** Only the zero vector has length zero. */
  lemma Norm2Pos(u: Position)
    requires u != Origin
    ensures Norm2(u) > 0.0
  {
    SquareNonNeg(u.x);
    SquareNonNeg(u.y);
    if u.x != 0.0 {
      SquarePos(u.x);
    } else {
      SquarePos(u.y);
    }
  }

  /** Squared euclidean distance; distances are compared squared, which
      avoids a square root and preserves every comparison between
      non-negative distances. */
  function DistSq(p: Position, q: Position): (r: real)
    ensures r >= 0.0
  {
    Norm2NonNeg(Sub(p, q));
    Norm2(Sub(p, q))
  }

  lemma DistSqSelf(p: Position)
    ensures DistSq(p, p) == 0.0
  {
    assert Sub(p, p) == Origin;
  }

  /** Distance is symmetric. */
  lemma DistSqSymmetric(p: Position, q: Position)
    ensures DistSq(p, q) == DistSq(q, p)
  {
    MulNeg(p.x - q.x, p.x - q.x);
    MulNeg(p.y - q.y, p.y - q.y);
    assert Sub(q, p) == Position(-(p.x - q.x), -(p.y - q.y));
  }

  datatype Align = Left | Center | Right | Justify

  /** Every field is optional, as in the source; an absent field is `None`. */
  datatype TextFormatting = TextFormatting(
    bold: Option<bool>,
    italic: Option<bool>,
    underline: Option<bool>,
    textAlign: Option<Align>,
    fontSize: Option<real>,
    fontFamily: Option<string>,
    lineAlignments: Option<map<nat, Align>>)

  const EmptyFormatting := TextFormatting(None, None, None, None, None, None, None)

  /** The four attachment points of a node. */
  datatype Anchor = Top | Right | Bottom | Left

  datatype ConnectionPoint = ConnectionPoint(nodeId: Id, position: Anchor)

  datatype NodeConnection = NodeConnection(
    sourceId: Id, targetId: Id, sourcePoint: Anchor, targetPoint: Anchor, id: Id)

  /** `manuallyPositioned` is optional in the source and only ever tested for
      truth, so an absent flag is `false` here. */
  datatype MindMapNode = MindMapNode(
    id: Id,
    text: string,
    x: real,
    y: real,
    children: seq<Id>,
    parentIds: seq<Id>,
    color: Option<string>,
    manuallyPositioned: bool,
    nodeType: Option<string>,
    formatting: Option<TextFormatting>)
  {
    function Pos(): Position { Position(x, y) }
  }

  datatype MindMapData = MindMapData(
    nodes: map<Id, MindMapNode>,
    rootId: Id,
    connections: seq<NodeConnection>)

  datatype DragMode = Move | Wire

  datatype DragState = DragState(
    nodeId: Option<Id>,
    potentialParentId: Option<Id>,
    offset: Position,
    initialPosition: Position,
    mode: Option<DragMode>,
    wireStartNodeId: Option<Id>)

  const Origin := Position(0.0, 0.0)

  const IdleDrag := DragState(None, None, Origin, Origin, None, None)

  /** Two node records agree on everything except their coordinates. */
  predicate SameButPosition(a: MindMapNode, b: MindMapNode) {
    a.(x := b.x, y := b.y) == b
  }

  /** Every node is stored under its own id. */
  ghost predicate IdsMatchKeys(nodes: map<Id, MindMapNode>) {
    forall k | k in nodes :: nodes[k].id == k
  }

  /** The legacy parent/child arrays mirror each other between present nodes:
      `c` is listed as a child of `p` exactly when `p` is listed as a parent of `c`. */
  ghost predicate Mirrored(nodes: map<Id, MindMapNode>) {
    forall p, c | p in nodes && c in nodes :: c in nodes[p].children <==> p in nodes[c].parentIds
  }

  /** `order` lists each key of `nodes` exactly once: the enumeration order
      of the JavaScript object holding the nodes. */
  ghost predicate Enumerates(order: seq<Id>, nodes: map<Id, MindMapNode>) {
    && (forall i, j | 0 <= i < j < |order| :: order[i] != order[j])
    && (forall k :: k in order <==> k in nodes)
  }
}
