/** The structural edits of the mind map, on map values: linking two nodes,
    adding and creating nodes, renaming, moving, deleting a connection, the
    anchor-to-anchor connection and the cascading delete of a node. Each
    edit re-reads a node after writing it, which is what the in-place
    mutation of a shared node object amounts to when one node plays two
    roles (a self link). */
module Graph {
  import opened Types
  import opened Seqs

  type Nodes = map<Id, MindMapNode>

  /** No node lists `id` as a child or a parent, and `id` is not a key: what a
      fresh uuid gives. */
  ghost predicate Fresh(nodes: Nodes, id: Id) {
    && id !in nodes
    && forall k | k in nodes :: id !in nodes[k].children && id !in nodes[k].parentIds
  }

  /** Two maps hold the same nodes except under `k`. */
  ghost predicate OthersUnchanged(a: Nodes, b: Nodes, ks: set<Id>) {
    forall k | k in a && k !in ks :: k in b && b[k] == a[k]
  }

  // ---------------------------------------------------------------------
  // Node-level links

  /** Node-level link (the wire drag-end and the second click of the wire
      tool): the node under `sourceKey` becomes a child of the node under
      `targetKey`, both arrays being extended only when the target does not
      list the source yet. A missing node makes it a no-op. */
  function Link(nodes: Nodes, sourceKey: Id, targetKey: Id): (r: Nodes)
    ensures r.Keys == nodes.Keys
    ensures sourceKey !in nodes || targetKey !in nodes || nodes[sourceKey].id in nodes[targetKey].children ==>
      r == nodes
    ensures sourceKey in nodes && targetKey in nodes && nodes[sourceKey].id !in nodes[targetKey].children ==>
      var src, tgt := nodes[sourceKey], nodes[targetKey];
      if sourceKey == targetKey then
        r[sourceKey] == src.(children := src.children + [src.id], parentIds := src.parentIds + [src.id])
      else
        r[targetKey] == tgt.(children := tgt.children + [src.id])
        && r[sourceKey] == src.(parentIds := src.parentIds + [tgt.id])
    ensures OthersUnchanged(nodes, r, {sourceKey, targetKey})
  {
    if sourceKey !in nodes || targetKey !in nodes then nodes
    else
      var src, tgt := nodes[sourceKey], nodes[targetKey];
      if src.id in tgt.children then nodes
      else
        var m := nodes[targetKey := tgt.(children := tgt.children + [src.id])];
        m[sourceKey := m[sourceKey].(parentIds := m[sourceKey].parentIds + [tgt.id])]
  }

  /** After a link between present nodes the source is a child of the target
      and the target a parent of the source, whether or not they were linked
      before. */
  lemma LinkLinks(nodes: Nodes, s: Id, t: Id)
    requires IdsMatchKeys(nodes) && Mirrored(nodes)
    requires s in nodes && t in nodes
    ensures s in Link(nodes, s, t)[t].children && t in Link(nodes, s, t)[s].parentIds
  {
    assert s in nodes[t].children <==> t in nodes[s].parentIds;
  }

  /** Linking twice is linking once. */
  lemma LinkIdempotent(nodes: Nodes, s: Id, t: Id)
    ensures Link(Link(nodes, s, t), s, t) == Link(nodes, s, t)
  {
    if s in nodes && t in nodes {
      var r := Link(nodes, s, t);
      assert r[s].id == nodes[s].id;
    }
  }

  /** `r` is `a` with the edge from parent `p0` to child `c0` set to `add` in
      both arrays, and every node id kept. */
  ghost predicate EdgeSet(a: Nodes, r: Nodes, p0: Id, c0: Id, add: bool) {
    && r.Keys == a.Keys
    && forall p | p in a ::
      && r[p].id == a[p].id
      && (forall c :: c in r[p].children <==> if p == p0 && c == c0 then add else c in a[p].children)
      && (forall c :: c in r[p].parentIds <==> if p == c0 && c == p0 then add else c in a[p].parentIds)
  }

  /** Setting one edge on both sides keeps the arrays mirrored. */
  lemma EdgeSetMirrored(a: Nodes, r: Nodes, p0: Id, c0: Id, add: bool)
    requires Mirrored(a) && EdgeSet(a, r, p0, c0, add)
    ensures Mirrored(r)
    ensures IdsMatchKeys(a) ==> IdsMatchKeys(r)
  {
    forall p, c | p in r && c in r
      ensures c in r[p].children <==> p in r[c].parentIds
    {
      assert c in a[p].children <==> p in a[c].parentIds;
    }
  }

  /** A link between present nodes keeps the child and parent arrays mirrored. */
  lemma LinkMirrored(nodes: Nodes, s: Id, t: Id)
    requires IdsMatchKeys(nodes) && Mirrored(nodes)
    ensures IdsMatchKeys(Link(nodes, s, t)) && Mirrored(Link(nodes, s, t))
  {
    var r := Link(nodes, s, t);
    if s in nodes && t in nodes && s !in nodes[t].children {
      forall p | p in nodes
        ensures r[p].id == nodes[p].id
        ensures forall c :: c in r[p].children <==> if p == t && c == s then true else c in nodes[p].children
        ensures forall c :: c in r[p].parentIds <==> if p == s && c == t then true else c in nodes[p].parentIds
      {
      }
      EdgeSetMirrored(nodes, r, t, s, true);
    }
  }

  // ---------------------------------------------------------------------
  // Adding, creating, renaming and moving nodes

  /** `addChildNode`: a new manually placed child `New Topic` near its parent
      (`offset` is the random displacement in `[-100, 100)²`), inheriting the
      parent's colour; a missing parent is a no-op. */
  function AddChild(nodes: Nodes, parentId: Id, newId: Id, offset: Position): (r: Nodes)
    ensures parentId !in nodes ==> r == nodes
    ensures parentId in nodes ==>
      && r.Keys == nodes.Keys + {newId}
      && var p, n := nodes[parentId], r[newId];
        && n == MindMapNode(newId, "New Topic", p.x + offset.x, p.y + offset.y, [], [parentId], p.color, true, None, None)
        && (newId != parentId ==> r[parentId] == p.(children := p.children + [newId]))
        && OthersUnchanged(nodes, r, {parentId, newId})
  {
    if parentId !in nodes then nodes
    else
      var p := nodes[parentId];
      var n := MindMapNode(newId, "New Topic", p.x + offset.x, p.y + offset.y, [], [parentId], p.color, true, None, None);
      nodes[parentId := p.(children := p.children + [newId])][newId := n]
  }

  /** A child with a fresh id keeps the arrays mirrored. */
  lemma AddChildMirrored(nodes: Nodes, parentId: Id, newId: Id, offset: Position)
    requires IdsMatchKeys(nodes) && Mirrored(nodes) && Fresh(nodes, newId)
    ensures IdsMatchKeys(AddChild(nodes, parentId, newId, offset))
    ensures Mirrored(AddChild(nodes, parentId, newId, offset))
  {
    var r := AddChild(nodes, parentId, newId, offset);
    if parentId in nodes {
      forall p, c | p in r && c in r
        ensures c in r[p].children <==> p in r[c].parentIds
      {
        if p != newId && c != newId {
          assert c in nodes[p].children <==> p in nodes[c].parentIds;
        }
      }
    }
  }

  const DarkNodeColor := "#ffffff"
  const LightNodeColor := "#1a1a1a"

  /** `createNewNode`: a node at the viewport centre; the first node of an
      empty map becomes the root and is titled `Central Idea`. */
  function CreateNode(data: MindMapData, newId: Id, centre: Position, nodeType: string, darkMode: bool): (r: MindMapData)
    ensures r.nodes.Keys == data.nodes.Keys + {newId}
    ensures r.rootId == if data.nodes == map[] then newId else data.rootId
    ensures r.nodes[newId].text == if data.nodes == map[] then "Central Idea" else "New Node"
    ensures var n := r.nodes[newId];
      && n.id == newId && n.Pos() == centre && n.children == [] && n.parentIds == []
      && n.nodeType == Some(nodeType) && !n.manuallyPositioned
      && n.color == Some(if darkMode then DarkNodeColor else LightNodeColor) && n.formatting == None
    ensures OthersUnchanged(data.nodes, r.nodes, {newId})
    ensures r.connections == data.connections
  {
    var first := data.nodes == map[];
    var n := MindMapNode(newId, if first then "Central Idea" else "New Node", centre.x, centre.y, [], [],
                         Some(if darkMode then DarkNodeColor else LightNodeColor), false, Some(nodeType), None);
    data.(rootId := if first then newId else data.rootId, nodes := data.nodes[newId := n])
  }

  lemma CreateNodeMirrored(data: MindMapData, newId: Id, centre: Position, nodeType: string, darkMode: bool)
    requires IdsMatchKeys(data.nodes) && Mirrored(data.nodes) && Fresh(data.nodes, newId)
    ensures var r := CreateNode(data, newId, centre, nodeType, darkMode).nodes;
      IdsMatchKeys(r) && Mirrored(r)
  {
    var r := CreateNode(data, newId, centre, nodeType, darkMode).nodes;
    forall p, c | p in r && c in r
      ensures c in r[p].children <==> p in r[c].parentIds
    {
      if p != newId && c != newId {
        assert c in data.nodes[p].children <==> p in data.nodes[c].parentIds;
      }
    }
  }

  /** `updateNodeText`: only the text of the node changes. */
  function UpdateText(nodes: Nodes, nodeId: Id, text: string): (r: Nodes)
    ensures r.Keys == nodes.Keys
    ensures nodeId in nodes ==> r[nodeId].text == text && r[nodeId] == nodes[nodeId].(text := text)
    ensures OthersUnchanged(nodes, r, {nodeId})
  {
    if nodeId in nodes then nodes[nodeId := nodes[nodeId].(text := text)] else nodes
  }

  /** The position part of `handleNodeDrag`: the node moves to `(x, y)` and
      is marked as manually positioned; a missing id is a no-op. */
  function MoveNode(nodes: Nodes, nodeId: Id, x: real, y: real): (r: Nodes)
    ensures r.Keys == nodes.Keys
    ensures nodeId in nodes ==>
      r[nodeId].x == x && r[nodeId].y == y && r[nodeId].manuallyPositioned
      && r[nodeId] == nodes[nodeId].(x := x, y := y, manuallyPositioned := true)
    ensures nodeId !in nodes ==> r == nodes
    ensures OthersUnchanged(nodes, r, {nodeId})
  {
    if nodeId in nodes then nodes[nodeId := nodes[nodeId].(x := x, y := y, manuallyPositioned := true)] else nodes
  }

  // ---------------------------------------------------------------------
  // The wire-drag target

  /** Maximum distance of a wire target from the dragged position, compared
      squared (150²). */
  const WireRadiusSq: real := 22500.0

  /** A node that may become the wire target of `draggedId`: not the dragged
      node, not the wire's start node (an empty start id excludes nothing),
      and not already a child of it. */
  predicate Eligible(n: MindMapNode, draggedId: Id, wireStart: Option<Id>) {
    && n.id != draggedId
    && !(wireStart.Some? && wireStart.value != "" && n.id == wireStart.value)
    && draggedId !in n.parentIds
  }

  /** A candidate within reach of the dragged position. */
  predicate InReach(nodes: Nodes, k: Id, draggedId: Id, wireStart: Option<Id>, at: Position) {
    k in nodes && Eligible(nodes[k], draggedId, wireStart) && DistSq(at, nodes[k].Pos()) < WireRadiusSq
  }

  /** Position `i` of the order holds a nearest candidate in reach, strictly
      nearer than every candidate before it and no farther than every one
      after it. */
  predicate NearestAt(nodes: Nodes, order: seq<Id>, draggedId: Id, wireStart: Option<Id>, at: Position, i: int) {
    && 0 <= i < |order|
    && InReach(nodes, order[i], draggedId, wireStart, at)
    && (forall j | 0 <= j < i && InReach(nodes, order[j], draggedId, wireStart, at) ::
          DistSq(at, nodes[order[j]].Pos()) > DistSq(at, nodes[order[i]].Pos()))
    && (forall j | i < j < |order| && InReach(nodes, order[j], draggedId, wireStart, at) ::
          DistSq(at, nodes[order[j]].Pos()) >= DistSq(at, nodes[order[i]].Pos()))
  }

  /** `target` is the id of a nearest candidate in reach, or none when no
      candidate is in reach or the nearest one has an empty id. */
  ghost predicate ChosenTarget(nodes: Nodes, order: seq<Id>, draggedId: Id, wireStart: Option<Id>, at: Position, target: Option<Id>) {
    && (target.Some? ==>
      target.value != "" &&
      exists i :: NearestAt(nodes, order, draggedId, wireStart, at, i) && nodes[order[i]].id == target.value)
    && (target.None? ==>
      (forall i | 0 <= i < |order| :: !InReach(nodes, order[i], draggedId, wireStart, at)) ||
      (exists i :: NearestAt(nodes, order, draggedId, wireStart, at, i) && nodes[order[i]].id == ""))
  }

  /** The wire-target search of `handleNodeDrag`, over the nodes in
      enumeration order: the first strictly nearest eligible node within 150.
      The result is the node's id; an empty id counts as none. */
  method NearestCandidate(nodes: Nodes, order: seq<Id>, draggedId: Id, wireStart: Option<Id>, at: Position)
    returns (target: Option<Id>)
    ensures ChosenTarget(nodes, order, draggedId, wireStart, at, target)
  {
    var best: Option<nat> := None;
    var minDistance: real := 0.0;
    var i := 0;
    while i < |order|
      invariant 0 <= i <= |order|
      invariant best.None? ==> forall j | 0 <= j < i :: !InReach(nodes, order[j], draggedId, wireStart, at)
      invariant best.Some? ==>
        best.value < i && InReach(nodes, order[best.value], draggedId, wireStart, at)
        && minDistance == DistSq(at, nodes[order[best.value]].Pos())
        && (forall j | 0 <= j < best.value && InReach(nodes, order[j], draggedId, wireStart, at) ::
              DistSq(at, nodes[order[j]].Pos()) > minDistance)
        && (forall j | best.value < j < i && InReach(nodes, order[j], draggedId, wireStart, at) ::
              DistSq(at, nodes[order[j]].Pos()) >= minDistance)
    {
      var k := order[i];
      if k in nodes && Eligible(nodes[k], draggedId, wireStart) {
        var d := DistSq(at, nodes[k].Pos());
        if d < WireRadiusSq && (best.None? || d < minDistance) {
          best, minDistance := Some(i), d;
        }
      }
      i := i + 1;
    }
    assert best.Some? ==> NearestAt(nodes, order, draggedId, wireStart, at, best.value);
    if best.Some? && nodes[order[best.value]].id != "" {
      target := Some(nodes[order[best.value]].id);
    } else {
      target := None;
    }
  }

  // ---------------------------------------------------------------------
  // Deleting a connection

  /** The index of the first connection with the id. */
  function FindConnection(conns: seq<NodeConnection>, id: Id): (r: Option<nat>)
    ensures r.Some? ==>
      r.value < |conns| && conns[r.value].id == id &&
      forall j | 0 <= j < r.value :: conns[j].id != id
    ensures r.None? ==> forall j | 0 <= j < |conns| :: conns[j].id != id
  {
    if conns == [] then None
    else if conns[0].id == id then Some(0)
    else
      var rest := FindConnection(conns[1..], id);
      if rest.Some? then Some(rest.value + 1) else None
  }

  /** `connections.filter(c => c.id !== id)`. */
  function WithoutConnection(conns: seq<NodeConnection>, id: Id): (r: seq<NodeConnection>)
    ensures |r| <= |conns|
  {
    if conns == [] then []
    else if conns[0].id == id then WithoutConnection(conns[1..], id)
    else [conns[0]] + WithoutConnection(conns[1..], id)
  }

  /** The connections kept are exactly those with another id. */
  lemma {:induction false} WithoutConnectionMembers(conns: seq<NodeConnection>, id: Id)
    ensures forall c :: c in WithoutConnection(conns, id) <==> c in conns && c.id != id
  {
    if conns != [] {
      assert conns == [conns[0]] + conns[1..];
      WithoutConnectionMembers(conns[1..], id);
    }
  }

  /** With no connection carrying the id, the filter keeps the list. */
  lemma {:induction false} WithoutConnectionAbsent(conns: seq<NodeConnection>, id: Id)
    requires forall j | 0 <= j < |conns| :: conns[j].id != id
    ensures WithoutConnection(conns, id) == conns
  {
    if conns != [] {
      WithoutConnectionAbsent(conns[1..], id);
      assert conns == [conns[0]] + conns[1..];
    }
  }

  /** Every connection with another id is kept as often as it occurs. */
  lemma {:induction false} WithoutConnectionCounts(conns: seq<NodeConnection>, id: Id, c: NodeConnection)
    requires c.id != id
    ensures multiset(WithoutConnection(conns, id))[c] == multiset(conns)[c]
  {
    if conns != [] {
      assert conns == [conns[0]] + conns[1..];
      WithoutConnectionCounts(conns[1..], id, c);
    }
  }

  /** A single connection is kept exactly when its id differs. */
  lemma WithoutConnectionOne(c: NodeConnection, id: Id)
    ensures WithoutConnection([c], id) == if c.id == id then [] else [c]
  {
    assert [c][1..] == [];
  }

  /** The filter works piece by piece, so it keeps the list order:
      filtering a concatenation concatenates the filtered parts. */
  lemma {:induction false} WithoutConnectionAppend(a: seq<NodeConnection>, b: seq<NodeConnection>, id: Id)
    ensures WithoutConnection(a + b, id) == WithoutConnection(a, id) + WithoutConnection(b, id)
  {
    if a == [] {
      var wb := WithoutConnection(b, id);
      assert a + b == b && WithoutConnection(a, id) == [];
      assert [] + wb == wb;
    } else {
      WithoutConnectionAppend(a[1..], b, id);
      WithoutConnectionAppendStep(a, b, id);
    }
  }

  /** The step of `WithoutConnectionAppend` for a non-empty first part. */
  lemma WithoutConnectionAppendStep(a: seq<NodeConnection>, b: seq<NodeConnection>, id: Id)
    requires a != []
    requires WithoutConnection(a[1..] + b, id) == WithoutConnection(a[1..], id) + WithoutConnection(b, id)
    ensures WithoutConnection(a + b, id) == WithoutConnection(a, id) + WithoutConnection(b, id)
  {
    var x, t := a[0], a[1..];
    var wt, wb := WithoutConnection(t, id), WithoutConnection(b, id);
    assert (a + b)[0] == x && (a + b)[1..] == t + b;
    assert WithoutConnection(a + b, id) == if x.id == id then wt + wb else [x] + (wt + wb);
    assert WithoutConnection(a, id) == if x.id == id then wt else [x] + wt;
    SeqAppendAssoc([x], wt, wb);
  }

  lemma SeqAppendAssoc<T>(a: seq<T>, b: seq<T>, c: seq<T>)
    ensures a + (b + c) == (a + b) + c
  {
  }

  /** The node-level part of a connection's deletion: the source leaves the
      target's children and the target leaves the source's parents. */
  function Unlink(nodes: Nodes, sourceKey: Id, targetKey: Id): (r: Nodes)
    ensures r.Keys == nodes.Keys
    ensures sourceKey in nodes && targetKey in nodes ==>
      nodes[sourceKey].id !in r[targetKey].children && nodes[targetKey].id !in r[sourceKey].parentIds
    ensures sourceKey !in nodes || targetKey !in nodes ==> r == nodes
    ensures OthersUnchanged(nodes, r, {sourceKey, targetKey})
  {
    if sourceKey !in nodes || targetKey !in nodes then nodes
    else
      var src, tgt := nodes[sourceKey], nodes[targetKey];
      var m := nodes[targetKey := tgt.(children := Without(tgt.children, src.id))];
      m[sourceKey := m[sourceKey].(parentIds := Without(m[sourceKey].parentIds, tgt.id))]
  }

  /** `handleDeleteConnection`. */
  function DeleteConnection(data: MindMapData, id: Id): (r: MindMapData)
    ensures FindConnection(data.connections, id).None? ==> r == data
    ensures r.connections == WithoutConnection(data.connections, id)
    ensures forall c :: c in r.connections <==> c in data.connections && c.id != id
    ensures r.rootId == data.rootId && r.nodes.Keys == data.nodes.Keys
    ensures var found := FindConnection(data.connections, id);
      found.Some? ==> r.nodes == Unlink(data.nodes, data.connections[found.value].sourceId, data.connections[found.value].targetId)
  {
    WithoutConnectionMembers(data.connections, id);
    var found := FindConnection(data.connections, id);
    if found.None? then
      WithoutConnectionAbsent(data.connections, id);
      data
    else
      var c := data.connections[found.value];
      data.(connections := WithoutConnection(data.connections, id), nodes := Unlink(data.nodes, c.sourceId, c.targetId))
  }

  /** Removing the node links of a connection keeps the arrays mirrored. */
  lemma UnlinkMirrored(nodes: Nodes, s: Id, t: Id)
    requires IdsMatchKeys(nodes) && Mirrored(nodes)
    ensures IdsMatchKeys(Unlink(nodes, s, t)) && Mirrored(Unlink(nodes, s, t))
  {
    var r := Unlink(nodes, s, t);
    if s in nodes && t in nodes {
      forall p | p in nodes
        ensures r[p].id == nodes[p].id
        ensures forall c :: c in r[p].children <==> if p == t && c == s then false else c in nodes[p].children
        ensures forall c :: c in r[p].parentIds <==> if p == s && c == t then false else c in nodes[p].parentIds
      {
      }
      EdgeSetMirrored(nodes, r, t, s, false);
    }
  }

  /** Linking and then unlinking two nodes that were not linked restores the
      map. */
  lemma UnlinkUndoesLink(nodes: Nodes, s: Id, t: Id)
    requires IdsMatchKeys(nodes) && Mirrored(nodes)
    requires s in nodes && t in nodes && s !in nodes[t].children
    ensures Unlink(Link(nodes, s, t), s, t) == nodes
  {
    assert t !in nodes[s].parentIds;
    var r := Unlink(Link(nodes, s, t), s, t);
    WithoutAppend(nodes[t].children, s);
    WithoutAppend(nodes[s].parentIds, t);
    if s == t {
      assert r[s] == nodes[s];
    } else {
      assert r[s] == nodes[s] && r[t] == nodes[t];
    }
  }

  lemma WithoutAppend(s: seq<string>, x: string)
    requires x !in s
    ensures Without(s + [x], x) == s
  {
    if s == [] {
      assert [x][1..] == [];
    } else {
      assert (s + [x])[1..] == s[1..] + [x];
      WithoutAppend(s[1..], x);
    }
  }

  // ---------------------------------------------------------------------
  // Anchor-to-anchor connections

  /** A connection between the two anchors, in this direction. */
  predicate Joins(c: NodeConnection, a: ConnectionPoint, b: ConnectionPoint) {
    c.sourceId == a.nodeId && c.targetId == b.nodeId && c.sourcePoint == a.position && c.targetPoint == b.position
  }

  /** The exact connection or its exact reverse is already stored. */
  predicate ConnectionExists(conns: seq<NodeConnection>, a: ConnectionPoint, b: ConnectionPoint) {
    exists i | 0 <= i < |conns| :: Joins(conns[i], a, b) || Joins(conns[i], b, a)
  }

  /** The node arrays written when anchor `a` is connected to anchor `b`:
      `a`'s node becomes a child of `b`'s node and `b`'s node a parent of
      `a`'s, each only when not listed yet. */
  function ConnectLinks(nodes: Nodes, a: Id, b: Id): (r: Nodes)
    requires a in nodes && b in nodes
    ensures r.Keys == nodes.Keys
    ensures a in r[b].children && b in r[a].parentIds
    ensures OthersUnchanged(nodes, r, {a, b})
  {
    var m := if a in nodes[b].children then nodes else nodes[b := nodes[b].(children := nodes[b].children + [a])];
    if b in m[a].parentIds then m else m[a := m[a].(parentIds := m[a].parentIds + [b])]
  }

  /** The connection a click on anchor `b` completes from the pending anchor
      `a` (`a` and `b` differ), with the id `newId`: rejected when it or its
      reverse exists, and when either node is missing; otherwise exactly one
      connection is appended and the node arrays are linked. */
  function Connect(data: MindMapData, a: ConnectionPoint, b: ConnectionPoint, newId: Id): (r: MindMapData)
    ensures ConnectionExists(data.connections, a, b) || a.nodeId !in data.nodes || b.nodeId !in data.nodes ==>
      r == data
    ensures !ConnectionExists(data.connections, a, b) && a.nodeId in data.nodes && b.nodeId in data.nodes ==>
      && r.connections == data.connections + [NodeConnection(a.nodeId, b.nodeId, a.position, b.position, newId)]
      && r.nodes == ConnectLinks(data.nodes, a.nodeId, b.nodeId)
      && r.rootId == data.rootId
  {
    if ConnectionExists(data.connections, a, b) || a.nodeId !in data.nodes || b.nodeId !in data.nodes then data
    else
      data.(nodes := ConnectLinks(data.nodes, a.nodeId, b.nodeId),
            connections := data.connections + [NodeConnection(a.nodeId, b.nodeId, a.position, b.position, newId)])
  }

  /** What a state updater does: return a value or throw. */
  datatype Outcome<T> = Threw | Returned(value: T)

  /** The anchor connection as written: after the duplicate check the
      updater reads the children of `b`'s node and then the parents of
      `a`'s node without checking that they exist, so a missing node throws
      a type error instead of leaving the map alone. */
  function ConnectAsWritten(data: MindMapData, a: ConnectionPoint, b: ConnectionPoint, newId: Id): (r: Outcome<MindMapData>)
    ensures r.Threw? <==>
      !ConnectionExists(data.connections, a, b) && (a.nodeId !in data.nodes || b.nodeId !in data.nodes)
    ensures r.Returned? ==> r.value == Connect(data, a, b, newId)
  {
    if ConnectionExists(data.connections, a, b) then Returned(data)
    else if b.nodeId !in data.nodes then Threw
    else
      var nodes := data.nodes;
      var m := if a.nodeId in nodes[b.nodeId].children then nodes
               else nodes[b.nodeId := nodes[b.nodeId].(children := nodes[b.nodeId].children + [a.nodeId])];
      if a.nodeId !in m then Threw
      else
        var m2 := if b.nodeId in m[a.nodeId].parentIds then m
                  else m[a.nodeId := m[a.nodeId].(parentIds := m[a.nodeId].parentIds + [b.nodeId])];
        Returned(data.(nodes := m2,
                       connections := data.connections + [NodeConnection(a.nodeId, b.nodeId, a.position, b.position, newId)]))
  }

  /** The crash of the finding: choose an anchor of a node as pending
      source, delete that node, then click an anchor of another node. */
  lemma ConnectAfterDeleteThrows(data: MindMapData, a: ConnectionPoint, b: ConnectionPoint, newId: Id)
    requires a.nodeId in data.nodes && a.nodeId != data.rootId
    requires !ConnectionExists(data.connections, a, b)
    ensures ConnectAsWritten(DeleteNode(data, a.nodeId), a, b, newId).Threw?
    ensures Connect(DeleteNode(data, a.nodeId), a, b, newId) == DeleteNode(data, a.nodeId)
  {
  }

  /** A second click pair on the same two anchors, in either direction,
      changes nothing. */
  lemma ConnectNoDuplicate(data: MindMapData, a: ConnectionPoint, b: ConnectionPoint, id1: Id, id2: Id)
    ensures Connect(Connect(data, a, b, id1), a, b, id2) == Connect(data, a, b, id1)
    ensures Connect(Connect(data, a, b, id1), b, a, id2) == Connect(data, a, b, id1)
  {
    var r := Connect(data, a, b, id1);
    if r != data {
      var i := |r.connections| - 1;
      assert Joins(r.connections[i], a, b);
      assert ConnectionExists(r.connections, a, b);
      assert ConnectionExists(r.connections, b, a);
    }
  }

  /** Connecting keeps the arrays mirrored. */
  lemma ConnectMirrored(data: MindMapData, a: ConnectionPoint, b: ConnectionPoint, newId: Id)
    requires IdsMatchKeys(data.nodes) && Mirrored(data.nodes)
    ensures var r := Connect(data, a, b, newId).nodes; IdsMatchKeys(r) && Mirrored(r)
  {
    var nodes := data.nodes;
    var x, y := a.nodeId, b.nodeId;
    if x in nodes && y in nodes {
      var r := ConnectLinks(nodes, x, y);
      assert x in nodes[y].children <==> y in nodes[x].parentIds;
      forall p | p in nodes
        ensures r[p].id == nodes[p].id
        ensures forall c :: c in r[p].children <==> if p == y && c == x then true else c in nodes[p].children
        ensures forall c :: c in r[p].parentIds <==> if p == x && c == y then true else c in nodes[p].parentIds
      {
      }
      EdgeSetMirrored(nodes, r, y, x, true);
    }
  }

  // ---------------------------------------------------------------------
  // Deleting a node

  /** Drop `id` from the children of each listed parent that exists. */
  function RemoveFromParents(nodes: Nodes, id: Id, parents: seq<Id>): (r: Nodes)
    ensures r.Keys == nodes.Keys
    ensures forall k | k in nodes ::
      r[k] == if k in parents then nodes[k].(children := Without(nodes[k].children, id)) else nodes[k]
  {
    if parents == [] then nodes
    else
      var p := parents[0];
      var m := if p in nodes then nodes[p := nodes[p].(children := Without(nodes[p].children, id))] else nodes;
      var r := RemoveFromParents(m, id, parents[1..]);
      assert forall k | k in nodes && k == p && k in parents[1..] ::
        Without(Without(nodes[k].children, id), id) == Without(nodes[k].children, id);
      r
  }

  /** The ids reachable from `todo` through `children` among present nodes,
      added to `seen`: a depth-first walk that skips what it has seen. */
  function Reach(nodes: Nodes, seen: set<Id>, todo: seq<Id>): (r: set<Id>)
    requires seen <= nodes.Keys
    ensures seen <= r <= nodes.Keys
    ensures forall i | 0 <= i < |todo| && todo[i] in nodes :: todo[i] in r
    decreases |nodes.Keys - seen|, |todo|
  {
    if todo == [] then seen
    else
      var c := todo[0];
      if c in seen || c !in nodes then Reach(nodes, seen, todo[1..])
      else
        assert nodes.Keys - (seen + {c}) < nodes.Keys - seen;
        var r := Reach(nodes, seen + {c}, nodes[c].children + todo[1..]);
        assert forall i | 1 <= i < |todo| :: todo[i] == (nodes[c].children + todo[1..])[|nodes[c].children| + i - 1];
        r
  }

  /** Every present child of a member is a member. */
  ghost predicate ClosedUnder(nodes: Nodes, s: set<Id>) {
    forall x, c | x in s && x in nodes && c in nodes[x].children && c in nodes :: c in s
  }

  /** The walk stops only when every seen node has its present children seen. */
  lemma {:induction false} ReachClosed(nodes: Nodes, seen: set<Id>, todo: seq<Id>)
    requires seen <= nodes.Keys
    requires forall x, c | x in seen && c in nodes[x].children && c in nodes :: c in seen || c in todo
    ensures ClosedUnder(nodes, Reach(nodes, seen, todo))
    decreases |nodes.Keys - seen|, |todo|
  {
    if todo == [] {
    } else {
      var c := todo[0];
      if c in seen || c !in nodes {
        ReachClosed(nodes, seen, todo[1..]);
      } else {
        assert nodes.Keys - (seen + {c}) < nodes.Keys - seen;
        ReachClosed(nodes, seen + {c}, nodes[c].children + todo[1..]);
      }
    }
  }

  /** The walk adds nothing outside a closed set holding where it starts. */
  lemma {:induction false} ReachLeast(nodes: Nodes, seen: set<Id>, todo: seq<Id>, s: set<Id>)
    requires seen <= nodes.Keys && seen <= s && ClosedUnder(nodes, s)
    requires forall i | 0 <= i < |todo| && todo[i] in nodes :: todo[i] in s
    ensures Reach(nodes, seen, todo) <= s
    decreases |nodes.Keys - seen|, |todo|
  {
    if todo != [] {
      var c := todo[0];
      if c in seen || c !in nodes {
        ReachLeast(nodes, seen, todo[1..], s);
      } else {
        assert nodes.Keys - (seen + {c}) < nodes.Keys - seen;
        var next := nodes[c].children + todo[1..];
        forall i | 0 <= i < |next| && next[i] in nodes
          ensures next[i] in s
        {
          if i >= |nodes[c].children| {
            assert next[i] == todo[i - |nodes[c].children| + 1];
          }
        }
        ReachLeast(nodes, seen + {c}, next, s);
      }
    }
  }

  /** The nodes not in `s`. */
  function Restrict(nodes: Nodes, s: set<Id>): (r: Nodes)
    ensures r.Keys == nodes.Keys - s
    ensures forall k | k in r :: r[k] == nodes[k]
  {
    map k | k in nodes && k !in s :: nodes[k]
  }

  /** Everything reachable from the present ids of `kids` through present
      children. */
  function Closure(nodes: Nodes, kids: seq<Id>): (r: set<Id>)
    ensures r <= nodes.Keys
    ensures forall i | 0 <= i < |kids| && kids[i] in nodes :: kids[i] in r
  {
    Reach(nodes, {}, kids)
  }

  /** The closure is closed, and lies inside every closed set holding the
      present ids of `kids`. */
  lemma ClosureLeast(nodes: Nodes, kids: seq<Id>, s: set<Id>)
    ensures ClosedUnder(nodes, Closure(nodes, kids))
    ensures ClosedUnder(nodes, s) && (forall i | 0 <= i < |kids| && kids[i] in nodes :: kids[i] in s) ==>
      Closure(nodes, kids) <= s
  {
    ReachClosed(nodes, {}, kids);
    if ClosedUnder(nodes, s) && (forall i | 0 <= i < |kids| && kids[i] in nodes :: kids[i] in s) {
      ReachLeast(nodes, {}, kids, s);
    }
  }

  /** The closure of a list headed by a present node `x` is `x`, the closure
      of `x`'s children, and the closure of the rest of the list among the
      nodes left once those are gone. */
  lemma ClosureCons(nodes: Nodes, kids: seq<Id>)
    requires kids != [] && kids[0] in nodes
    ensures var x := kids[0];
      var a := {x} + Closure(nodes, nodes[x].children);
      Closure(nodes, kids) == a + Closure(Restrict(nodes, a), kids[1..])
  {
    var x := kids[0];
    var c1 := Closure(nodes, nodes[x].children);
    var a := {x} + c1;
    var rest := Restrict(nodes, a);
    var c3 := Closure(rest, kids[1..]);
    var s1 := a + c3;
    var s2 := Closure(nodes, kids);
    ClosureLeast(nodes, nodes[x].children, s2);
    ClosureLeast(rest, kids[1..], s2 * rest.Keys);
    forall y, c | y in s1 && y in nodes && c in nodes[y].children && c in nodes
      ensures c in s1
    {
      if y == x {
        var i :| 0 <= i < |nodes[x].children| && nodes[x].children[i] == c;
      } else if y !in a && c !in a {
        assert c in rest[y].children;
      }
    }
    forall i | 0 <= i < |kids| && kids[i] in nodes
      ensures kids[i] in s1
    {
      if i > 0 && kids[i] !in a {
        assert kids[1..][i - 1] == kids[i];
      }
    }
    ClosureLeast(nodes, kids, s1);
    forall y, c | y in s2 && y in nodes && c in nodes[y].children && c in nodes
      ensures c in s2
    {
    }
    forall c | c in nodes[x].children && c in nodes
      ensures c in s2
    {
    }
    forall i | 0 <= i < |kids[1..]| && kids[1..][i] in rest
      ensures kids[1..][i] in s2 * rest.Keys
    {
      assert kids[1..][i] == kids[i + 1];
    }
  }

  /** The nodes removed with `id`: it and everything reachable from it. */
  function Subtree(nodes: Nodes, id: Id): (r: set<Id>)
    ensures id in nodes ==> id in r
    ensures r <= nodes.Keys
  {
    Reach(nodes, {}, [id])
  }

  /** The subtree is the least set holding `id` that is closed under present
      children. */
  lemma SubtreeIsClosure(nodes: Nodes, id: Id, s: set<Id>)
    ensures ClosedUnder(nodes, Subtree(nodes, id))
    ensures id in s && ClosedUnder(nodes, s) ==> Subtree(nodes, id) <= s
  {
    ReachClosed(nodes, {}, [id]);
    if id in s && ClosedUnder(nodes, s) {
      ReachLeast(nodes, {}, [id], s);
    }
  }

  /** `handleDeleteNode` as intended: the root and missing ids are kept;
      otherwise the node leaves its parents' children and the node with its
      whole subtree is removed. Connections are untouched. */
  function DeleteNode(data: MindMapData, id: Id): (r: MindMapData)
    ensures id == data.rootId || id !in data.nodes ==> r == data
    ensures r.rootId == data.rootId && r.connections == data.connections
    ensures id != data.rootId && id in data.nodes ==>
      var m := RemoveFromParents(data.nodes, id, data.nodes[id].parentIds);
      && r.nodes.Keys == data.nodes.Keys - Subtree(m, id)
      && id !in r.nodes
      && forall k | k in r.nodes :: r.nodes[k] == m[k]
  {
    if id == data.rootId || id !in data.nodes then data
    else
      var m := RemoveFromParents(data.nodes, id, data.nodes[id].parentIds);
      data.(nodes := Restrict(m, Subtree(m, id)))
  }

  /** After a delete no remaining node is a child of a removed one, and
      nothing outside the subtree was removed. */
  lemma DeleteNodeRemovesSubtree(data: MindMapData, id: Id, k: Id)
    requires id != data.rootId && id in data.nodes
    ensures var m := RemoveFromParents(data.nodes, id, data.nodes[id].parentIds);
      var r := DeleteNode(data, id).nodes;
      (k in data.nodes && k !in r ==> k in Subtree(m, id))
      && (k in data.nodes && k !in r ==> forall c | c in m[k].children && c in m :: c !in r)
  {
    var m := RemoveFromParents(data.nodes, id, data.nodes[id].parentIds);
    SubtreeIsClosure(m, id, {});
  }

  /** Deleting keeps the arrays mirrored among the remaining nodes. */
  lemma DeleteNodeMirrored(data: MindMapData, id: Id)
    requires IdsMatchKeys(data.nodes) && Mirrored(data.nodes)
    ensures IdsMatchKeys(DeleteNode(data, id).nodes) && Mirrored(DeleteNode(data, id).nodes)
  {
    if id != data.rootId && id in data.nodes {
      var nodes := data.nodes;
      var r := DeleteNode(data, id).nodes;
      forall p, c | p in r && c in r
        ensures c in r[p].children <==> p in r[c].parentIds
      {
        assert c in nodes[p].children <==> p in nodes[c].parentIds;
        assert c != id;
      }
    }
  }

  // ---------------------------------------------------------------------
  // The cascade as written

  /** `deleteNodeAndChildren` as written: for each child id still present,
      first the recursive call on that child's children, then its removal.
      A node is only removed after the recursion below it returns, so a
      cycle below the start makes the recursion unbounded, which the running
      system ends by throwing once its call stack is exhausted; `fuel` bounds
      the recursion depth and `None` means the bound was hit. */
  function DeleteTreeAsWritten(nodes: Nodes, kids: seq<Id>, fuel: nat): (r: Option<Nodes>)
    ensures r.Some? ==> r.value.Keys <= nodes.Keys
    decreases fuel, |kids|
  {
    if kids == [] then Some(nodes)
    else if kids[0] !in nodes then DeleteTreeAsWritten(nodes, kids[1..], fuel)
    else if fuel == 0 then None
    else
      match DeleteTreeAsWritten(nodes, nodes[kids[0]].children, fuel - 1)
      case None => None
      case Some(m) => DeleteTreeAsWritten(m - {kids[0]}, kids[1..], fuel)
  }

  /** `handleDeleteNode` as written, with the recursion depth bounded by `fuel`. */
  function DeleteNodeAsWritten(data: MindMapData, id: Id, fuel: nat): (r: Option<MindMapData>)
    ensures id == data.rootId || id !in data.nodes ==> r == Some(data)
  {
    if id == data.rootId || id !in data.nodes then Some(data)
    else
      var m := RemoveFromParents(data.nodes, id, data.nodes[id].parentIds);
      match DeleteTreeAsWritten(m, m[id].children, fuel)
      case None => None
      case Some(m2) => Some(data.(nodes := m2 - {id}))
  }

  /** Where the cascade as written returns, it has removed exactly the
      closure of the ids it was started on. */
  lemma {:induction false} DeleteTreeAsWrittenAgrees(nodes: Nodes, kids: seq<Id>, fuel: nat)
    ensures DeleteTreeAsWritten(nodes, kids, fuel).Some? ==>
      DeleteTreeAsWritten(nodes, kids, fuel).value == Restrict(nodes, Closure(nodes, kids))
    decreases fuel, |kids|
  {
    if kids == [] {
      assert Restrict(nodes, {}) == nodes;
    } else if kids[0] !in nodes {
      DeleteTreeAsWrittenAgrees(nodes, kids[1..], fuel);
    } else if fuel > 0 {
      var x := kids[0];
      var inner := DeleteTreeAsWritten(nodes, nodes[x].children, fuel - 1);
      DeleteTreeAsWrittenAgrees(nodes, nodes[x].children, fuel - 1);
      if inner.Some? {
        var c1 := Closure(nodes, nodes[x].children);
        var a := {x} + c1;
        var rest := inner.value - {x};
        assert rest == Restrict(nodes, a);
        DeleteTreeAsWrittenAgrees(rest, kids[1..], fuel);
        ClosureCons(nodes, kids);
        var c3 := Closure(rest, kids[1..]);
        assert Restrict(rest, c3) == Restrict(nodes, a + c3);
      }
    }
  }

  /** Where `handleDeleteNode` as written returns, it agrees with the
      intended delete. */
  lemma DeleteNodeAsWrittenAgrees(data: MindMapData, id: Id, fuel: nat)
    ensures DeleteNodeAsWritten(data, id, fuel).Some? ==>
      DeleteNodeAsWritten(data, id, fuel).value == DeleteNode(data, id)
  {
    if id != data.rootId && id in data.nodes {
      var m := RemoveFromParents(data.nodes, id, data.nodes[id].parentIds);
      DeleteTreeAsWrittenAgrees(m, m[id].children, fuel);
      ClosureCons(m, [id]);
      var a := {id} + Closure(m, m[id].children);
      assert Closure(Restrict(m, a), []) == {};
      assert Subtree(m, id) == a;
      var r := DeleteTreeAsWritten(m, m[id].children, fuel);
      if r.Some? {
        assert r.value - {id} == Restrict(m, a);
      }
    }
  }

  /** A present node that lists itself as a child sends the as-written walk
      into itself at every depth, so no depth bound is enough. */
  lemma {:induction false} SelfLoopExceedsEveryBound(nodes: Nodes, x: Id, fuel: nat)
    requires x in nodes && nodes[x].children == [x]
    ensures DeleteTreeAsWritten(nodes, [x], fuel).None?
  {
    if fuel > 0 {
      SelfLoopExceedsEveryBound(nodes, x, fuel - 1);
    }
  }

  /** The map of the finding: `r` is the root, `p` its child, and `x` a child
      of `p` that two different anchors of the same node made its own child
      and parent. */
  function SelfLoopExample(): MindMapData {
    var r := MindMapNode("r", "root", 0.0, 0.0, ["p"], [], None, false, None, None);
    var p := MindMapNode("p", "p", 0.0, 0.0, ["x"], ["r"], None, false, None, None);
    var x := MindMapNode("x", "x", 0.0, 0.0, ["x"], ["p", "x"], None, false, None, None);
    MindMapData(map["r" := r, "p" := p, "x" := x], "r",
                [NodeConnection("x", "x", Top, Anchor.Right, "c")])
  }

  /** Deleting `p` exceeds every depth bound, although the map is mirrored
      (the running system throws when its call stack runs out); the intended
      delete removes `p` and `x`. */
  lemma DeleteNodeAsWrittenUnbounded(fuel: nat)
    ensures Mirrored(SelfLoopExample().nodes)
    ensures DeleteNodeAsWritten(SelfLoopExample(), "p", fuel).None?
    ensures DeleteNode(SelfLoopExample(), "p").nodes.Keys == {"r"}
  {
    var d := SelfLoopExample();
    var m := RemoveFromParents(d.nodes, "p", ["r"]);
    assert m["x"].children == ["x"];
    if fuel > 0 {
      SelfLoopExceedsEveryBound(m, "x", fuel - 1);
    }
    SelfLoopExampleSubtree();
    SelfLoopExampleMirrored();
  }

  /** The example's child and parent arrays mirror each other. */
  lemma SelfLoopExampleMirrored()
    ensures Mirrored(SelfLoopExample().nodes)
  {
  }

  /** In the example, the subtree removed with `p` is `p` and `x`. */
  lemma SelfLoopExampleSubtree()
    ensures Subtree(RemoveFromParents(SelfLoopExample().nodes, "p", ["r"]), "p") == {"p", "x"}
  {
    var m := RemoveFromParents(SelfLoopExample().nodes, "p", ["r"]);
    assert m["p"].children == ["x"];
    SubtreeIsClosure(m, "p", {"p", "x"});
  }

  /** The self loop of the example arises from one anchor connection between
      two sides of the same node. */
  lemma SelfLoopFromAnchors()
    ensures var base := MindMapNode("x", "x", 0.0, 0.0, [], [], None, false, None, None);
      var d := MindMapData(map["x" := base], "x", []);
      var r := Connect(d, ConnectionPoint("x", Top), ConnectionPoint("x", Anchor.Right), "c");
      r.nodes["x"].children == ["x"] && r.nodes["x"].parentIds == ["x"]
  {
    var base := MindMapNode("x", "x", 0.0, 0.0, [], [], None, false, None, None);
    var d := MindMapData(map["x" := base], "x", []);
    assert !ConnectionExists(d.connections, ConnectionPoint("x", Top), ConnectionPoint("x", Anchor.Right));
  }
}
