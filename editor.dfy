/** The mind-map editor component: its state hooks become the fields of one
    object and its event handlers the methods that update them. A state
    updater that React would queue runs at once, in call order, on the
    state left by the previous one. The id enumeration order of the node
    record is the field `order`. */
module Editor {
  import opened Types
  import opened Seqs
  import opened Graph
  import opened Layout

  datatype Tool = SelectTool | NodeTool | WireTool | PanTool

  const MinScale: real := 0.1
  const MaxScale: real := 2.0

  // ---------------------------------------------------------------------
  // View rules

  function Lesser(a: real, b: real): real { if a <= b then a else b }
  function Greater(a: real, b: real): real { if a >= b then a else b }

  /** The ctrl-wheel zoom: shrink by 0.9 when scrolling down, grow by 1.1
      otherwise, then clamp into [0.1, 2]. */
  function WheelScale(s: real, deltaY: real): (r: real)
    ensures MinScale <= r <= MaxScale
    ensures var f := if deltaY > 0.0 then 0.9 else 1.1;
      MinScale <= s * f <= MaxScale ==> r == s * f
    ensures deltaY > 0.0 && MinScale <= s ==> r <= s
    ensures deltaY <= 0.0 && 0.0 <= s <= MaxScale ==> r >= s
  {
    var f := if deltaY > 0.0 then 0.9 else 1.1;
    Lesser(Greater(MinScale, s * f), MaxScale)
  }

  /** Zoom in by 20%, capped at 2. */
  function ZoomIn(s: real): (r: real)
    ensures r <= MaxScale
    ensures 0.0 <= s <= MaxScale ==> s <= r
    ensures s * 1.2 <= MaxScale ==> r == s * 1.2
  {
    Lesser(MaxScale, s * 1.2)
  }

  /** Zoom out by 20%, floored at 0.1. */
  function ZoomOut(s: real): (r: real)
    ensures MinScale <= r
    ensures MinScale <= s ==> r <= s
    ensures MinScale <= s * 0.8 ==> r == s * 0.8
  {
    Greater(MinScale, s * 0.8)
  }

  /** Both zoom buttons keep a scale inside [0.1, 2] inside it. */
  lemma ZoomKeepsRange(s: real)
    requires MinScale <= s <= MaxScale
    ensures MinScale <= ZoomIn(s) <= MaxScale
    ensures MinScale <= ZoomOut(s) <= MaxScale
  {
  }

  /** Zooming in and then out never ends above where it started. */
  lemma ZoomInThenOut(s: real)
    requires MinScale <= s <= MaxScale
    ensures ZoomOut(ZoomIn(s)) <= s
  {
  }

  /** The tool shortcut keys. */
  function ToolForKey(key: string): (r: Option<Tool>)
    ensures r.Some? <==> key in {"v", "n", "c", "h"}
  {
    if key == "v" then Some(SelectTool)
    else if key == "n" then Some(NodeTool)
    else if key == "c" then Some(WireTool)
    else if key == "h" then Some(PanTool)
    else None
  }

  /** The key each tool is labelled with in the help text. */
  function KeyOf(t: Tool): string {
    match t
    case SelectTool => "v"
    case NodeTool => "n"
    case WireTool => "c"
    case PanTool => "h"
  }

  /** Every tool has exactly one shortcut key. */
  lemma ToolKeysAgree(key: string, t: Tool)
    ensures ToolForKey(KeyOf(t)) == Some(t)
    ensures ToolForKey(key) == Some(t) ==> key == KeyOf(t)
  {
  }

  datatype ZoomKey = ZoomInKey | ZoomOutKey | ResetKey

  function ZoomForKey(key: string): (r: Option<ZoomKey>)
    ensures r.Some? <==> key in {"=", "-", "0"}
    ensures r.Some? ==> ToolForKey(key).None?
  {
    if key == "=" then Some(ZoomInKey)
    else if key == "-" then Some(ZoomOutKey)
    else if key == "0" then Some(ResetKey)
    else None
  }

  /** The random offset of a new child from two uniform draws in [0, 1). */
  function ChildOffset(rx: real, ry: real): (r: Position)
    ensures 0.0 <= rx < 1.0 && 0.0 <= ry < 1.0 ==>
      -100.0 <= r.x < 100.0 && -100.0 <= r.y < 100.0
  {
    Position(rx * 200.0 - 100.0, ry * 200.0 - 100.0)
  }

  // ---------------------------------------------------------------------
  // The enumeration order of the node record

  predicate Distinct(s: seq<Id>) {
    forall i, j | 0 <= i < j < |s| :: s[i] != s[j]
  }

  /** The order after deletions: the surviving keys, in their old order. */
  function Keep(order: seq<Id>, keys: set<Id>): (r: seq<Id>)
    ensures forall x :: x in r <==> x in order && x in keys
    ensures Distinct(order) ==> Distinct(r)
  {
    if order == [] then []
    else if order[0] in keys then
      var rest := Keep(order[1..], keys);
      assert Distinct(order) ==> Distinct(order[1..]) && order[0] !in order[1..];
      [order[0]] + rest
    else Keep(order[1..], keys)
  }

  /** Keeping distributes over concatenation, so the survivors keep their
      relative order. */
  lemma {:induction false} KeepAppend(a: seq<Id>, b: seq<Id>, keys: set<Id>)
    ensures Keep(a + b, keys) == Keep(a, keys) + Keep(b, keys)
    decreases |a|
  {
    if a != [] {
      assert (a + b)[0] == a[0];
      assert (a + b)[1..] == a[1..] + b;
      KeepAppend(a[1..], b, keys);
    } else {
      assert a + b == b;
    }
  }

  /** The order after writing under `k`: a new key goes last, an existing
      key keeps its place. */
  function Touch(order: seq<Id>, k: Id): (r: seq<Id>)
    ensures forall x :: x in r <==> x in order || x == k
    ensures Distinct(order) ==> Distinct(r)
  {
    if k in order then order else order + [k]
  }

  /** After an insertion under `k` the touched order enumerates the keys. */
  lemma TouchEnumerates(order: seq<Id>, a: Nodes, b: Nodes, k: Id)
    requires Enumerates(order, a) && b.Keys == a.Keys + {k}
    ensures Enumerates(Touch(order, k), b)
  {
    assert Distinct(order);
  }

  /** After removals the kept order enumerates the remaining keys. */
  lemma KeepEnumerates(order: seq<Id>, a: Nodes, b: Nodes)
    requires Enumerates(order, a) && b.Keys <= a.Keys
    ensures Enumerates(Keep(order, b.Keys), b)
  {
    assert Distinct(order);
  }

  /** A created node keeps the order an enumeration and, with a fresh id,
      the arrays mirrored. */
  lemma CreateNodeKeeps(data: MindMapData, order: seq<Id>, newId: Id, centre: Position, nodeType: string, darkMode: bool)
    requires Enumerates(order, data.nodes)
    ensures Enumerates(Touch(order, newId), CreateNode(data, newId, centre, nodeType, darkMode).nodes)
    ensures IdsMatchKeys(data.nodes) && Mirrored(data.nodes) && Fresh(data.nodes, newId) ==>
      var r := CreateNode(data, newId, centre, nodeType, darkMode).nodes;
      IdsMatchKeys(r) && Mirrored(r)
  {
    TouchEnumerates(order, data.nodes, CreateNode(data, newId, centre, nodeType, darkMode).nodes, newId);
    if IdsMatchKeys(data.nodes) && Mirrored(data.nodes) && Fresh(data.nodes, newId) {
      CreateNodeMirrored(data, newId, centre, nodeType, darkMode);
    }
  }

  // ---------------------------------------------------------------------
  // What a layout pass may do

  /** `after` is a layout of `before`: only coordinates change, manually
      positioned nodes keep theirs, and without a root nothing changes. */
  ghost predicate LaidOut(before: MindMapData, after: MindMapData) {
    && (before.rootId !in before.nodes ==> after == before)
    && after.rootId == before.rootId && after.connections == before.connections
    && after.nodes.Keys == before.nodes.Keys
    && (forall k | k in before.nodes :: SameButPosition(before.nodes[k], after.nodes[k]))
    && (forall k | k in before.nodes && before.nodes[k].manuallyPositioned :: after.nodes[k] == before.nodes[k])
  }

  /** A layout keeps every id, child and parent array. */
  lemma LaidOutKeepsLinks(before: MindMapData, after: MindMapData)
    requires LaidOut(before, after)
    ensures forall k | k in before.nodes ::
      after.nodes[k].id == before.nodes[k].id
      && after.nodes[k].children == before.nodes[k].children
      && after.nodes[k].parentIds == before.nodes[k].parentIds
    ensures IdsMatchKeys(before.nodes) ==> IdsMatchKeys(after.nodes)
    ensures Mirrored(before.nodes) ==> Mirrored(after.nodes)
  {
    forall k | k in before.nodes
      ensures after.nodes[k].id == before.nodes[k].id
      ensures after.nodes[k].children == before.nodes[k].children
      ensures after.nodes[k].parentIds == before.nodes[k].parentIds
    {
      assert SameButPosition(before.nodes[k], after.nodes[k]);
    }
  }

  /** The interaction state besides the map and its order. */
  datatype View = View(
    selected: Option<Id>,
    scale: real,
    translate: Position,
    tool: Tool,
    drag: DragState,
    darkMode: bool,
    connectionSource: Option<Id>,
    pending: Option<ConnectionPoint>,
    activePoint: Option<ConnectionPoint>,
    isConnecting: bool)

  /** A wire drag that ends with a link: a start node and a target. */
  predicate WireLinks(d: DragState) {
    d.mode == Some(Wire) && Truthy(d.wireStartNodeId) && Truthy(d.potentialParentId)
  }

  class MindMapEditor {
    var data: MindMapData
    var order: seq<Id>
    var selected: Option<Id>
    var scale: real
    var translate: Position
    var tool: Tool
    var drag: DragState
    var darkMode: bool
    var connectionSource: Option<Id>
    var pending: Option<ConnectionPoint>
    var activePoint: Option<ConnectionPoint>
    var isConnecting: bool
    /** Half the window size: the root's ring centre and where new nodes go. */
    const centre: Position
    const trig: Trig

    ghost predicate Valid()
      reads this
    {
      Enumerates(order, data.nodes) && MinScale <= scale <= MaxScale
    }

    /** Every node is stored under its own id and the parent and child
        arrays mirror each other. */
    ghost predicate WellLinked()
      reads this
    {
      IdsMatchKeys(data.nodes) && Mirrored(data.nodes)
    }

    ghost function Snapshot(): View
      reads this
    {
      View(selected, scale, translate, tool, drag, darkMode, connectionSource, pending, activePoint, isConnecting)
    }

    /** The component's initial state: the given map (in the given
        enumeration order) or the empty one with an empty root id. */
    constructor(initial: Option<MindMapData>, initialOrder: seq<Id>, centre: Position, trig: Trig)
      requires initial.Some? ==> Enumerates(initialOrder, initial.value.nodes)
      ensures Valid()
      ensures data == if initial.Some? then initial.value else MindMapData(map[], "", [])
      ensures Snapshot() == View(None, 1.0, Origin, SelectTool, IdleDrag, false, None, None, None, false)
      ensures this.centre == centre && this.trig == trig
    {
      data := if initial.Some? then initial.value else MindMapData(map[], "", []);
      order := if initial.Some? then initialOrder else [];
      selected := None;
      scale := 1.0;
      translate := Origin;
      tool := SelectTool;
      drag := IdleDrag;
      darkMode := false;
      connectionSource := None;
      pending := None;
      activePoint := None;
      isConnecting := false;
      this.centre := centre;
      this.trig := trig;
    }

    /** `calculateTreeLayout` run on the current map with the current drag
        state. */
    method ApplyLayout()
      requires Valid()
      modifies this
      ensures Valid()
      ensures LaidOut(old(data), data)
      ensures order == old(order) && Snapshot() == old(Snapshot())
      ensures old(WellLinked()) ==> WellLinked()
    {
      var r := CalculateTreeLayout(data, order, drag, centre, trig);
      assert LaidOut(data, r);
      LaidOutKeepsLinks(data, r);
      data := r;
    }

    /** A node-level link of `s` under `t` followed by a layout. */
    method LinkAndLayout(s: Id, t: Id)
      requires Valid()
      modifies this
      ensures Valid()
      ensures LaidOut(old(data).(nodes := Link(old(data.nodes), s, t)), data)
      ensures order == old(order) && Snapshot() == old(Snapshot())
      ensures old(WellLinked()) ==> WellLinked()
      ensures old(WellLinked()) && s in old(data.nodes) && t in old(data.nodes) ==>
        s in data.nodes[t].children && t in data.nodes[s].parentIds
    {
      if WellLinked() {
        LinkMirrored(data.nodes, s, t);
        if s in data.nodes && t in data.nodes {
          LinkLinks(data.nodes, s, t);
        }
      }
      var linked := data.(nodes := Link(data.nodes, s, t));
      data := linked;
      ApplyLayout();
      LaidOutKeepsLinks(linked, data);
    }

    // -------------------------------------------------------------------
    // Dragging

    /** A drag starts in wire mode under the wire tool, else in move mode. */
    method HandleNodeDragStart(nodeId: Id, offset: Position, initialPosition: Position)
      requires Valid()
      modifies this
      ensures Valid()
      ensures data == old(data) && order == old(order)
      ensures Snapshot() == old(Snapshot()).(drag := DragState(Some(nodeId), None, offset, initialPosition,
        Some(if tool == WireTool then DragMode.Wire else Move), if tool == WireTool then Some(nodeId) else None))
    {
      if tool == WireTool {
        drag := DragState(Some(nodeId), None, offset, initialPosition, Some(Wire), Some(nodeId));
      } else {
        drag := DragState(Some(nodeId), None, offset, initialPosition, Some(Move), None);
      }
    }

    /** A drag step: the node moves and becomes manually positioned; in wire
        mode the wire target becomes the nearest eligible node within 150 of
        the new position. A missing node changes nothing. */
    method HandleNodeDrag(nodeId: Id, x: real, y: real)
      requires Valid()
      modifies this
      ensures Valid()
      ensures data == old(data).(nodes := MoveNode(old(data.nodes), nodeId, x, y)) && order == old(order)
      ensures nodeId !in old(data.nodes) || old(drag.mode) != Some(Wire) ==> Snapshot() == old(Snapshot())
      ensures nodeId in old(data.nodes) && old(drag.mode) == Some(Wire) ==>
        && Snapshot() == old(Snapshot()).(drag := old(drag).(potentialParentId := drag.potentialParentId))
        && ChosenTarget(data.nodes, order, nodeId, old(drag.wireStartNodeId), Position(x, y), drag.potentialParentId)
      ensures old(WellLinked()) ==> WellLinked()
    {
      if nodeId in data.nodes {
        data := data.(nodes := MoveNode(data.nodes, nodeId, x, y));
        if drag.mode == Some(Wire) {
          var target := NearestCandidate(data.nodes, order, nodeId, drag.wireStartNodeId, Position(x, y));
          drag := drag.(potentialParentId := target);
        }
      }
    }

    /** The end of a drag. Without a dragged node nothing happens. A wire
        drag with a start and a target links the start under the target and
        lays the map out; a move drag lays the map out; the drag state is
        then reset. */
    method HandleNodeDragEnd()
      requires Valid()
      modifies this
      ensures Valid()
      ensures order == old(order)
      ensures !Truthy(old(drag.nodeId)) ==>
        data == old(data) && Snapshot() == old(Snapshot())
      ensures Truthy(old(drag.nodeId)) ==> Snapshot() == old(Snapshot()).(drag := IdleDrag)
      ensures Truthy(old(drag.nodeId)) && WireLinks(old(drag)) ==>
        LaidOut(old(data).(nodes := Link(old(data.nodes), old(drag.wireStartNodeId.value), old(drag.potentialParentId.value))), data)
      ensures Truthy(old(drag.nodeId)) && old(drag.mode) == Some(Move) ==> LaidOut(old(data), data)
      ensures Truthy(old(drag.nodeId)) && old(drag.mode) == Some(Wire) && !WireLinks(old(drag)) ==> data == old(data)
      ensures Truthy(old(drag.nodeId)) && WireLinks(old(drag)) && old(WellLinked()) ==>
        var s, t := old(drag.wireStartNodeId.value), old(drag.potentialParentId.value);
        s in old(data.nodes) && t in old(data.nodes) ==> s in data.nodes[t].children && t in data.nodes[s].parentIds
      ensures old(WellLinked()) ==> WellLinked()
    {
      if !Truthy(drag.nodeId) {
        return;
      }
      if WireLinks(drag) {
        LinkAndLayout(drag.wireStartNodeId.value, drag.potentialParentId.value);
      } else if drag.mode == Some(Move) {
        ApplyLayout();
      }
      drag := IdleDrag;
    }

    // -------------------------------------------------------------------
    // Structural edits

    /** Deleting a connection by id. */
    method HandleDeleteConnection(connectionId: Id)
      requires Valid()
      modifies this
      ensures Valid()
      ensures data == DeleteConnection(old(data), connectionId)
      ensures order == old(order) && Snapshot() == old(Snapshot())
      ensures old(WellLinked()) ==> WellLinked()
    {
      var found := FindConnection(data.connections, connectionId);
      if found.Some? && WellLinked() {
        var c := data.connections[found.value];
        UnlinkMirrored(data.nodes, c.sourceId, c.targetId);
      }
      data := DeleteConnection(data, connectionId);
    }

    /** A new child of an existing node, placed at the parent plus a random
        offset; no layout follows. */
    method AddChildNode(parentId: Id, newId: Id, rx: real, ry: real)
      requires Valid()
      modifies this
      ensures Valid()
      ensures data == old(data).(nodes := AddChild(old(data.nodes), parentId, newId, ChildOffset(rx, ry)))
      ensures order == if parentId in old(data.nodes) then Touch(old(order), newId) else old(order)
      ensures Snapshot() == old(Snapshot())
      ensures old(WellLinked()) && old(Fresh(data.nodes, newId)) ==> WellLinked()
    {
      if WellLinked() && Fresh(data.nodes, newId) {
        AddChildMirrored(data.nodes, parentId, newId, ChildOffset(rx, ry));
      }
      var nodes := AddChild(data.nodes, parentId, newId, ChildOffset(rx, ry));
      if parentId in data.nodes {
        TouchEnumerates(order, data.nodes, nodes, newId);
        order := Touch(order, newId);
      }
      data := data.(nodes := nodes);
    }

    method UpdateNodeText(nodeId: Id, text: string)
      requires Valid()
      modifies this
      ensures Valid()
      ensures data == old(data).(nodes := UpdateText(old(data.nodes), nodeId, text))
      ensures order == old(order) && Snapshot() == old(Snapshot())
      ensures old(WellLinked()) ==> WellLinked()
    {
      data := data.(nodes := UpdateText(data.nodes, nodeId, text));
    }

    /** A new node at the viewport centre, selected; the first node of an
        empty map becomes its root. */
    method CreateNewNode(newId: Id, nodeType: string)
      requires Valid()
      modifies this
      ensures Valid()
      ensures data == CreateNode(old(data), newId, centre, nodeType, old(darkMode))
      ensures order == Touch(old(order), newId)
      ensures Snapshot() == old(Snapshot()).(selected := Some(newId))
      ensures old(WellLinked()) && old(Fresh(data.nodes, newId)) ==> WellLinked()
    {
      var made := CreateNode(data, newId, centre, nodeType, darkMode);
      var touched := Touch(order, newId);
      CreateNodeKeeps(data, order, newId, centre, nodeType, darkMode);
      assert Enumerates(touched, made.nodes);
      assert IdsMatchKeys(data.nodes) && Mirrored(data.nodes) && Fresh(data.nodes, newId) ==>
        IdsMatchKeys(made.nodes) && Mirrored(made.nodes);
      data := made;
      order := touched;
      selected := Some(newId);
    }

    /** Deleting a node: the root is refused outright; otherwise the node
        and its subtree go (a missing id removes nothing), the selection is
        cleared if it was the node, and the map is laid out. */
    method HandleDeleteNode(nodeId: Id)
      requires Valid()
      modifies this
      ensures Valid()
      ensures nodeId == old(data.rootId) ==> data == old(data) && order == old(order) && Snapshot() == old(Snapshot())
      ensures nodeId != old(data.rootId) ==>
        && LaidOut(DeleteNode(old(data), nodeId), data)
        && order == Keep(old(order), data.nodes.Keys)
        && Snapshot() == old(Snapshot()).(selected := if old(selected) == Some(nodeId) then None else old(selected))
      ensures old(WellLinked()) ==> WellLinked()
    {
      if nodeId == data.rootId {
        return;
      }
      if WellLinked() {
        DeleteNodeMirrored(data, nodeId);
      }
      var d := DeleteNode(data, nodeId);
      KeepEnumerates(order, data.nodes, d.nodes);
      data := d;
      order := Keep(order, data.nodes.Keys);
      if selected == Some(nodeId) {
        selected := None;
      }
      ApplyLayout();
    }

    // -------------------------------------------------------------------
    // Linking by clicks

    /** A node click. Under the wire tool the first click picks the source,
        a click on another node links the source under it and lays the map
        out, and a second click on the source cancels; the clicked node is
        selected in every case. */
    method HandleNodeSelection(nodeId: Id)
      requires Valid()
      modifies this
      ensures Valid()
      ensures order == old(order)
      ensures old(tool) != WireTool || !Truthy(old(connectionSource)) || old(connectionSource.value) == nodeId ==>
        data == old(data)
      ensures old(tool) != WireTool ==> Snapshot() == old(Snapshot()).(selected := Some(nodeId))
      ensures old(tool) == WireTool ==>
        Snapshot() == old(Snapshot()).(selected := Some(nodeId),
          connectionSource := if Truthy(old(connectionSource)) then None else Some(nodeId))
      ensures old(tool) == WireTool && Truthy(old(connectionSource)) && old(connectionSource.value) != nodeId ==>
        LaidOut(old(data).(nodes := Link(old(data.nodes), old(connectionSource.value), nodeId)), data)
      ensures old(tool) == WireTool && Truthy(old(connectionSource)) && old(connectionSource.value) != nodeId && old(WellLinked()) ==>
        var s := old(connectionSource.value);
        s in old(data.nodes) && nodeId in old(data.nodes) ==> s in data.nodes[nodeId].children && nodeId in data.nodes[s].parentIds
      ensures old(WellLinked()) ==> WellLinked()
    {
      if tool == WireTool {
        if !Truthy(connectionSource) {
          connectionSource := Some(nodeId);
        } else if connectionSource.value != nodeId {
          var s := connectionSource.value;
          connectionSource := None;
          LinkAndLayout(s, nodeId);
        } else {
          connectionSource := None;
        }
      }
      selected := Some(nodeId);
    }

    /** An anchor click. With no pending anchor it becomes the pending one;
        a click on the pending anchor itself cancels; any other anchor,
        another anchor of the same node included, is connected to it with
        the fresh id `newId`, the pending state is cleared and the map laid
        out. */
    method HandleConnectionPointClick(point: ConnectionPoint, newId: Id)
      requires Valid()
      modifies this
      ensures Valid()
      ensures order == old(order)
      ensures old(pending).None? ==>
        data == old(data) && Snapshot() == old(Snapshot()).(pending := Some(point), isConnecting := true)
      ensures old(pending) == Some(point) ==>
        data == old(data) && Snapshot() == old(Snapshot()).(pending := None, activePoint := None, isConnecting := false)
      ensures old(pending).Some? && old(pending) != Some(point) ==>
        && LaidOut(Connect(old(data), old(pending.value), point, newId), data)
        && Snapshot() == old(Snapshot()).(pending := None, activePoint := None, isConnecting := false)
      ensures old(WellLinked()) ==> WellLinked()
    {
      if pending.None? {
        pending := Some(point);
        isConnecting := true;
        return;
      }
      if pending.value.nodeId == point.nodeId && pending.value.position == point.position {
        pending := None;
        activePoint := None;
        isConnecting := false;
        return;
      }
      if WellLinked() {
        ConnectMirrored(data, pending.value, point, newId);
      }
      data := Connect(data, pending.value, point, newId);
      pending := None;
      activePoint := None;
      isConnecting := false;
      ApplyLayout();
    }

    /** Choosing a tool. A change of tool drops the node-click source unless
        the new tool is the wire tool, and drops the pending anchor; choosing
        the current tool again changes nothing. */
    method SetTool(t: Tool)
      requires Valid()
      modifies this
      ensures Valid()
      ensures data == old(data) && order == old(order)
      ensures t == old(tool) ==> Snapshot() == old(Snapshot())
      ensures t != old(tool) ==>
        Snapshot() == old(Snapshot()).(tool := t, pending := None, activePoint := None, isConnecting := false,
          connectionSource := if t == WireTool then old(connectionSource) else None)
    {
      if t != tool {
        tool := t;
        if t != WireTool {
          connectionSource := None;
        }
        activePoint := None;
        pending := None;
        isConnecting := false;
      }
    }

    // -------------------------------------------------------------------
    // Viewport

    /** The wheel zooms with ctrl held and pans otherwise. */
    method HandleWheel(ctrl: bool, deltaX: real, deltaY: real)
      requires Valid()
      modifies this
      ensures Valid()
      ensures data == old(data) && order == old(order)
      ensures ctrl ==> Snapshot() == old(Snapshot()).(scale := WheelScale(old(scale), deltaY))
      ensures !ctrl ==> Snapshot() == old(Snapshot()).(translate := Position(old(translate.x) - deltaX, old(translate.y) - deltaY))
    {
      if ctrl {
        scale := WheelScale(scale, deltaY);
      } else {
        translate := Position(translate.x - deltaX, translate.y - deltaY);
      }
    }

    method HandleZoomIn()
      requires Valid()
      modifies this
      ensures Valid()
      ensures data == old(data) && order == old(order)
      ensures Snapshot() == old(Snapshot()).(scale := ZoomIn(old(scale)))
    {
      ZoomKeepsRange(scale);
      scale := ZoomIn(scale);
    }

    method HandleZoomOut()
      requires Valid()
      modifies this
      ensures Valid()
      ensures data == old(data) && order == old(order)
      ensures Snapshot() == old(Snapshot()).(scale := ZoomOut(old(scale)))
    {
      ZoomKeepsRange(scale);
      scale := ZoomOut(scale);
    }

    method HandleResetView()
      requires Valid()
      modifies this
      ensures Valid()
      ensures data == old(data) && order == old(order)
      ensures Snapshot() == old(Snapshot()).(scale := 1.0, translate := Origin)
    {
      scale := 1.0;
      translate := Origin;
    }

    /** Keyboard shortcuts: tool keys choose a tool, `=`, `-` and `0` zoom
        in, out and reset; other keys do nothing. */
    method HandleKeyDown(key: string)
      requires Valid()
      modifies this
      ensures Valid()
      ensures data == old(data) && order == old(order)
      ensures ToolForKey(key).Some? && ToolForKey(key).value == old(tool) ==> Snapshot() == old(Snapshot())
      ensures ToolForKey(key).Some? && ToolForKey(key).value != old(tool) ==>
        var t := ToolForKey(key).value;
        Snapshot() == old(Snapshot()).(tool := t, pending := None, activePoint := None, isConnecting := false,
          connectionSource := if t == WireTool then old(connectionSource) else None)
      ensures ZoomForKey(key) == Some(ZoomInKey) ==> Snapshot() == old(Snapshot()).(scale := ZoomIn(old(scale)))
      ensures ZoomForKey(key) == Some(ZoomOutKey) ==> Snapshot() == old(Snapshot()).(scale := ZoomOut(old(scale)))
      ensures ZoomForKey(key) == Some(ResetKey) ==> Snapshot() == old(Snapshot()).(scale := 1.0, translate := Origin)
      ensures ToolForKey(key).None? && ZoomForKey(key).None? ==> Snapshot() == old(Snapshot())
    {
      var t := ToolForKey(key);
      if t.Some? {
        SetTool(t.value);
      }
      var z := ZoomForKey(key);
      if z == Some(ZoomInKey) {
        HandleZoomIn();
      } else if z == Some(ZoomOutKey) {
        HandleZoomOut();
      } else if z == Some(ResetKey) {
        HandleResetView();
      }
    }
  }
}
