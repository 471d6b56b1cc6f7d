# Mind Map Builder — a Dafny model of the editor core

Mind Map Builder is a browser mind-map editor. A map holds nodes keyed by id.
Each node has text, a position, `children` and `parentIds` arrays, an optional
type and text formatting. Anchor-to-anchor connections are kept in a separate
list. This project models the four core files of the editor and proves
properties of the model:

- `src/components/MindMap.tsx`, the editor component:
  - its state hooks and event handlers (`editor.dfy`, class `Editor.MindMapEditor`);
  - the structural edits it makes to the map (`graph.dfy`): linking, adding
    and creating nodes, renaming, moving, deleting connections and nodes, and
    connecting two anchors;
  - `calculateTreeLayout` (`layout.dfy`): breadth-first levels from the root,
    radial placement on rings and overlap relaxation.
- `src/components/Node.tsx`, one node card (`node.dfy`): how the text is cut
  into aligned lines, the cursor line, the formatting updates, the menus and
  the drag handlers (class `NodeView.NodeWidget`).
- `src/components/Connections.tsx`, the canvas layer (`connections.dfy`): the
  anchor positions, the points kept for hit-testing, the point-to-segment
  distance, the hover search and the path map rebuilt on every redraw (class
  `Connections.ConnectionLayer`).
- `src/utils/aiService.ts`, the mock text-to-map generator (`generator.dfy`).

`types.dfy` holds the records of `src/types/MindMap.ts` as datatypes. `seqs.dfy`
holds the string helpers the source gets from JavaScript: `split`, `join`,
`slice` with negative bounds, `trim` and `filter`.

How the model represents the source:

- **The editor is a class.** Its fields are the component's state hooks. Each
  handler is a method whose `ensures` gives the whole new state, with one
  exception. The handlers that run a layout give the new map only up to
  `Editor.LaidOut`: the same keys, ids, links, root and connections, with
  only coordinates changed and manually positioned nodes kept. These are
  `ApplyLayout`, `LinkAndLayout`, `HandleNodeDragEnd`, `HandleDeleteNode`,
  `HandleNodeSelection` and `HandleConnectionPointClick`. The reason is that
  the overlap relaxation of the layout (`Layout.Relax`) is specified by that
  frame, not by a function of its input. The helper ghost function
  `Snapshot()` collects the fields other than the map.
- **Structural edits are functions on map values.** A node that the source
  mutates in place through a shallow copy is re-read after every write. This
  is what the mutation amounts to when one node plays two roles, as in a
  self link.
- **Enumeration order is a field.** The order in which JavaScript enumerates
  the node record is the field `order`. A new key goes last and deletions keep
  the survivors in order. Relaxation and the wire-target search walk this
  order.
- **Outside calls become parameters.** Cosine, sine, arctangent, square root
  and pi come in as a `Layout.Trig` value. Uuids and `Math.random` draws come
  in as explicit inputs. For the generator, a slot oracle `Slot -> Id` gives
  the id of each node, with the assumption that distinct slots get distinct
  ids.
- **Distances are compared squared** wherever the source compares a square
  root against a constant. The overlap check is the exception: it keeps the
  supplied square root, because it also pushes nodes by the distance itself.

Some behaviour of the code is worth stating outright, because the model keeps
it:

- **Hit-test points keep the jitter.** The canvas stores the jittered samples
  for hit-testing; only the two ends are exact.
- **The empty connection id is never stored.** `drawCurvedPath` tests the id
  for truthiness, so a connection whose id is `""` is drawn but gets no
  hit-test path, and hovering it never finds it.
- **Same-node anchor links are allowed.** Connecting two different anchors of
  one node is accepted, which makes the node its own child and parent.
- **Anchor clicks can throw.** Connecting from an anchor of a node that was
  deleted meanwhile throws; it is not a no-op.
- **Cascade delete recurses without bound on a cycle of children.** The
  cascading delete keeps no visited set, so a node reachable from itself
  through `children` makes it recurse until the JavaScript engine throws a
  `RangeError` (maximum call stack size exceeded).

The last two are findings below.

## Model

| member | source | states |
|---|---|---|
| NodeView.LineAlign | src/components/Node.tsx:443-451 | A line's own entry in `lineAlignments` wins; else the node-wide `textAlign`; else left. |
| NodeView.Shown | src/components/Node.tsx:453 | A shown line is never empty; a non-empty line is shown as itself. |
| NodeView.FormattedLines | src/components/Node.tsx:441-456 | Exactly one rendered line per line break plus one. None is empty or holds a break. Each carries the alignment of its index. |
| NodeView.FormattedLinesText | src/components/Node.tsx:442-453 | Round trip: joining the shown lines with breaks, placeholders dropped, gives back the node's text. |
| NodeView.CursorLine | src/components/Node.tsx:464-471 | The cursor line is at most the number of breaks, so it is always a rendered line. A cursor at or past the end is on the last line. |
| NodeView.CursorLineStep | src/components/Node.tsx:469-471 | Moving the cursor one character forward moves the line by one exactly when that character is a break. |
| NodeView.CursorLineAfterLines | src/components/Node.tsx:469-471 | In a text joined from break-free lines, a cursor right after the m-th break is on line m. |
| NodeView.UpdateFormatting | src/components/Node.tsx:479-488 | The written property takes the new value. Every other property is as in `node.formatting || {}`. |
| NodeView.UpdateFormattingOverwrites | src/components/Node.tsx:479-488 | Writing the same property twice keeps only the second value. |
| NodeView.ToggleFormatting | src/components/Node.tsx:490-493 | Bold, italic or underline becomes the negation of its truthiness (unset counts as false). Nothing else changes. |
| NodeView.ToggleTwice | src/components/Node.tsx:490-493 | Toggling bold, italic or underline twice restores its truthiness. A set flag gets the whole record back exactly; an unset one ends as an explicit `false` with all else kept. |
| NodeView.UpdateLineAlignment | src/components/Node.tsx:496-523 | Nothing happens unless editing with a textarea. Otherwise only the cursor line's entry is set, other entries and properties are kept, and that line is drawn with the new alignment. |
| NodeView.LineAlignmentLocal | src/components/Node.tsx:496-523 | Aligning the cursor line never changes how any other line is drawn. |
| NodeView.MarksAnchor | src/components/Node.tsx:709-719 | An anchor is highlighted exactly when the marked point is this node and this side. |
| NodeView.DragFollowsPointer | src/components/Node.tsx:559-571 | Moving the mouse by `d` times the scale moves the node by exactly `d`, at any zoom. |
| NodeView.DragWithoutMovement | src/components/Node.tsx:532-571 | A left press outside the controls followed by a move at the same point sends the node's own position. |
| NodeView.NodeWidget.constructor | src/components/Node.tsx:419-426 | Starts not dragging, not editing, with both menus closed and the cursor on line 0. |
| NodeView.NodeWidget.HandleCursorMove | src/components/Node.tsx:464-476 | The recorded line becomes the cursor's line, which is a valid line index. |
| NodeView.NodeWidget.ResetLineFormatting | src/components/Node.tsx:626-641 | The current line's entry is dropped and the other entries are kept. An emptied map becomes unset. Every other property is kept. |
| NodeView.NodeWidget.HandleEditClick | src/components/Node.tsx:645-650 | Editing starts and both menus close. |
| NodeView.NodeWidget.HandleTypeClick | src/components/Node.tsx:660-664 | The type menu flips and the toolbar closes, so the two are never open together. |
| NodeView.NodeWidget.HandleFormatClick | src/components/Node.tsx:666-670 | The toolbar flips and the type menu closes. |
| NodeView.NodeWidget.CloseMenus | src/components/Node.tsx:672-693 | After add-child or delete, both menus are closed. |
| NodeView.NodeWidget.CloseTypeMenu | src/components/Node.tsx:841-870 | Picking a type closes the type menu. |
| NodeView.NodeWidget.HandleBlur | src/components/Node.tsx:782 | Leaving the textarea ends editing. |
| NodeView.NodeWidget.HandleMouseDown | src/components/Node.tsx:532-556 | A drag starts exactly on a left press outside the controls. The refs then hold the mouse and node positions; otherwise nothing changes. |
| NodeView.NodeWidget.HandleMouseMove | src/components/Node.tsx:559-572 | A position is emitted exactly while dragging with both refs set: the initial node position plus the mouse movement divided by the scale. |
| NodeView.NodeWidget.HandleMouseUp | src/components/Node.tsx:575-589 | It reports whether a drag was under way. Dragging stops, and an ended drag clears both refs. |
| Connections.AnchorPosition | src/components/Connections.tsx:99-118 | A missing node gives the origin. Otherwise: top middle, right middle, bottom middle or left middle of the 200 × 60 box. |
| Connections.AnchorGeometry | src/components/Connections.tsx:99-118 | Anchors lie on the box border, opposite anchors mirror each other through the box centre, and moving a node moves its anchors by the same vector. |
| Connections.Midpoint | src/components/Connections.tsx:138-139 | The returned point is the midpoint: twice it is the sum of the two ends. |
| Connections.EverySecondSnoc | src/components/Connections.tsx:166-194 | Walking one more sample extends the kept points exactly when that sample's index is even. |
| Connections.RetainedPathShape | src/components/Connections.tsx:160-204 | A stored path has 12 points: the exact start, samples 2, 4, …, 20 in order, and the exact end. |
| Connections.SegDistSq | src/components/Connections.tsx:229-259 | The squared point-to-segment distance is never negative. |
| Connections.ClampedParam | src/components/Connections.tsx:236-250 | The projection parameter, once clamped, lies in [0, 1]. |
| Connections.NearestIsClamped | src/components/Connections.tsx:229-259 | The three-branch nearest point is the segment's point at the clamped projection parameter. |
| Connections.SegDistAtMostEnds | src/components/Connections.tsx:229-259 | The distance to the segment is at most the distance to either end. |
| Connections.SegDistDegenerate | src/components/Connections.tsx:236-240 | For a zero-length segment the distance is the distance to that point. |
| Connections.SegDistAtEnds | src/components/Connections.tsx:229-259 | The segment's own endpoints are at distance zero. |
| Connections.SegDistOutside | src/components/Connections.tsx:242-247 | A query projecting before the start is measured to the start; one projecting after the end is measured to the end. |
| Connections.NearPathAtPoint | src/components/Connections.tsx:263-278 | A query at any stored point of a path with a segment hits the path. |
| Connections.RetainedPathHitAtAnchors | src/components/Connections.tsx:160-204 | A stored path is always hit at both anchors, whatever the jitter. |
| Connections.FirstHit | src/components/Connections.tsx:293-319 | The first connection in list order whose path is near is found, and none before it is near. No result means none is near. |
| Connections.StoreOneKeeps | src/components/Connections.tsx:162-203 | Storing one more connection's path keeps both facts of `StoredPathsKeys` for the connections seen so far. |
| Connections.StoredPathsKeys | src/components/Connections.tsx:338-375 | After a redraw, exactly the ids of connections with both nodes present and a non-empty id have a path, so `""` never has one (the truthiness tests at Connections.tsx:162, 192 and 201). Each path runs from the source anchor to the target anchor of such a connection. |
| Connections.RedrawHitsSources | src/components/Connections.tsx:338-375 | After a redraw, every stored id is non-empty, and its path is hit at the source anchor of a connection with that id whose two nodes exist. |
| Connections.ConnectionLayer.constructor | src/components/Connections.tsx:93-96 | Starts with no stored paths and nothing hovered. |
| Connections.ConnectionLayer.DrawCurvedPath | src/components/Connections.tsx:121-226 | A path with a truthy id is stored as the retained points. A preview path (no id) and a path whose id is `""` are not stored. The unjittered midpoint is returned. |
| Connections.ConnectionLayer.IsPointNearPath | src/components/Connections.tsx:263-278 | True exactly when a path is stored under the id and some consecutive pair is within 8 units. |
| Connections.ConnectionLayer.HandleMouseMove | src/components/Connections.tsx:281-320 | With a canvas, the hover becomes the first connection hit at the unscaled mouse, with its delete button at the scaled anchor midpoint, or nothing. Without a canvas the hover is unchanged. |
| Connections.ConnectionLayer.HandleCanvasClick | src/components/Connections.tsx:323-334 | A click while hovering asks to delete exactly the hovered id. The hover ends up cleared. |
| Connections.ConnectionLayer.Redraw | src/components/Connections.tsx:336-407 | The path map is rebuilt from scratch as `Connections.StoredPaths`: drawn connections with a non-empty id, in list order (empty without a canvas). A preview is drawn exactly when a source is pending, the mouse is known and the pending node exists, from that anchor to the active anchor or the mouse. |
| Graph.Link | src/components/MindMap.tsx:441-456 | Between present nodes not yet linked, the source is appended to the target's children and the target to the source's parents; a self link appends to both arrays of one node. Otherwise nothing changes. No other node changes. |
| Graph.LinkLinks | src/components/MindMap.tsx:446-452 | After a link between present nodes, the source is a child of the target and the target a parent of the source. |
| Graph.LinkIdempotent | src/components/MindMap.tsx:448 | Linking twice is the same as linking once. |
| Graph.LinkMirrored | src/components/MindMap.tsx:446-452 | A link keeps every node under its own id and keeps the child and parent arrays mirrored. |
| Graph.AddChild | src/components/MindMap.tsx:507-541 | A missing parent changes nothing. Otherwise the new node `New Topic` sits at the parent plus the offset, has the parent's colour and the parent as its only parent, and is manually positioned. It is appended to the parent's children and nothing else changes. |
| Graph.AddChildMirrored | src/components/MindMap.tsx:507-541 | With a fresh id, adding a child keeps the arrays mirrored. |
| Graph.CreateNode | src/components/MindMap.tsx:812-843 | Exactly one node is added, at the centre, with no links, the given type, the dark-mode colour and no formatting. In an empty map it becomes the root titled `Central Idea`; otherwise it is `New Node`. Nothing else changes. |
| Graph.CreateNodeMirrored | src/components/MindMap.tsx:812-843 | With a fresh id, creating a node keeps the arrays mirrored. |
| Graph.UpdateText | src/components/MindMap.tsx:543-554 | Only the text of the named node changes. |
| Graph.MoveNode | src/components/MindMap.tsx:388-400 | The dragged node takes the new coordinates and becomes manually positioned. A missing node changes nothing. |
| Graph.NearestCandidate | src/components/MindMap.tsx:403-429 | In enumeration order, the first strictly nearest node within 150 that is not the dragged node, not the wire's start and has no dragged parent. No candidate, or an empty id, gives none. |
| Graph.FindConnection | src/components/MindMap.tsx:479-480 | The index of the first connection with the id. None means no connection has it. |
| Graph.WithoutConnection | src/components/MindMap.tsx:483 | The filtered list is never longer than the original. |
| Graph.WithoutConnectionMembers | src/components/MindMap.tsx:483 | The kept connections are exactly those with another id. |
| Graph.WithoutConnectionCounts | src/components/MindMap.tsx:483 | A connection with another id is kept as many times as it occurs. |
| Graph.WithoutConnectionAbsent | src/components/MindMap.tsx:483 | Without a connection carrying the id, the list is returned unchanged. |
| Graph.WithoutConnectionOne | src/components/MindMap.tsx:483 | A single connection is kept exactly when its id differs. |
| Graph.WithoutConnectionAppend | src/components/MindMap.tsx:483 | Filtering a concatenation concatenates the filtered parts, so the kept connections stay in list order. |
| Graph.Unlink | src/components/MindMap.tsx:486-496 | Between present nodes, the source leaves the target's children and the target leaves the source's parents. Otherwise nothing changes. No other node changes. |
| Graph.DeleteConnection | src/components/MindMap.tsx:477-505 | An unknown id changes nothing. Otherwise the connections become `Graph.WithoutConnection` of them (order and repeats kept, exactly those with the id gone), the first such connection's nodes are unlinked by `Graph.Unlink`, and the keys and root stay. |
| Graph.UnlinkMirrored | src/components/MindMap.tsx:486-496 | Unlinking keeps the arrays mirrored. |
| Graph.UnlinkUndoesLink | src/components/MindMap.tsx:441-496 | Linking two unlinked present nodes and then unlinking them restores the map exactly. |
| Graph.ConnectLinks | src/components/MindMap.tsx:1005-1016 | The source node ends up a child of the target node, and the target a parent of the source; no other node changes. |
| Graph.Connect | src/components/MindMap.tsx:978-1025 | The connection or its reverse already existing, or a missing node, leaves the map alone. Otherwise exactly one connection is appended and the two nodes are linked. |
| Graph.ConnectAsWritten | src/components/MindMap.tsx:978-1025 | The code as written throws exactly when the connection is new and a node is missing. When it returns, it agrees with `Graph.Connect`. |
| Graph.ConnectAfterDeleteThrows | src/components/MindMap.tsx:1009-1016 | Deleting the pending source's node and then clicking a target throws as written; the corrected connect leaves the map alone. |
| Graph.ConnectNoDuplicate | src/components/MindMap.tsx:980-994 | Repeating a connection in either direction changes nothing. |
| Graph.ConnectMirrored | src/components/MindMap.tsx:1005-1016 | Connecting keeps the arrays mirrored. |
| Graph.RemoveFromParents | src/components/MindMap.tsx:569-577 | The deleted id leaves the children of exactly the listed parents that exist; nothing else changes. |
| Graph.Reach | src/components/MindMap.tsx:580-590 | The walk grows the seen set within the keys and includes every present start node. |
| Graph.ReachClosed | src/components/MindMap.tsx:580-590 | The walk's result holds every present child of every member. |
| Graph.ReachLeast | src/components/MindMap.tsx:580-590 | The walk adds nothing outside a closed set that holds its start. |
| Graph.Subtree | src/components/MindMap.tsx:580-593 | The removed set holds the deleted node and only keys. |
| Graph.SubtreeIsClosure | src/components/MindMap.tsx:580-593 | The removed set is the least set holding the node that is closed under present children. |
| Graph.DeleteNode | src/components/MindMap.tsx:556-599 | The root and missing ids change nothing. Otherwise the node leaves its parents' children, and the node and its whole subtree are removed; connections stay. |
| Graph.DeleteNodeRemovesSubtree | src/components/MindMap.tsx:569-593 | Only subtree nodes are removed, and no remaining node is a listed child of a removed one. |
| Graph.DeleteNodeMirrored | src/components/MindMap.tsx:556-599 | Deleting keeps the arrays mirrored among the remaining nodes. |
| Graph.DeleteTreeAsWritten | src/components/MindMap.tsx:580-590 | The recursive cascade as written, bounded by fuel, only ever removes keys. |
| Graph.Restrict | src/components/MindMap.tsx:580-593 | Removing a set of keys keeps every other node as it was. |
| Graph.Closure | src/components/MindMap.tsx:580-590 | The nodes reachable through `children` from a list of ids are present nodes and include every listed id that is present. |
| Graph.ClosureLeast | src/components/MindMap.tsx:580-590 | That set is closed under `children` and is the least closed set holding the present listed ids. |
| Graph.ClosureCons | src/components/MindMap.tsx:582-588 | The set for a list is its present first id with that id's own set, and then the set of the rest among the remaining nodes; this is one step of the `forEach`. |
| Graph.DeleteTreeAsWrittenAgrees | src/components/MindMap.tsx:580-590 | Whenever the cascade as written finishes, it removes exactly the nodes reachable from the listed children and keeps the rest unchanged. |
| Graph.DeleteNodeAsWrittenAgrees | src/components/MindMap.tsx:556-593 | Whenever the delete as written finishes, its result is `Graph.DeleteNode`. |
| Graph.DeleteNodeAsWritten | src/components/MindMap.tsx:556-593 | As written, the root and missing ids are kept unchanged. |
| Graph.SelfLoopExceedsEveryBound | src/components/MindMap.tsx:580-590 | A node listing itself as a child makes the cascade as written recurse without bound: it exceeds every depth bound, where the running system throws a `RangeError`. |
| Graph.DeleteNodeAsWrittenUnbounded | src/components/MindMap.tsx:556-593 | On a mirrored map with a self-linked grandchild, deleting the child as written exceeds every depth bound (the running system throws a `RangeError`). The corrected delete removes both. |
| Graph.SelfLoopFromAnchors | src/components/MindMap.tsx:965-1016 | Connecting two different anchors of one node makes it its own child and parent. |
| Layout.BuildLevels | src/components/MindMap.tsx:246-274 | The levels start with the root alone and end with the first empty level. No id appears twice. Each level holds present children of the previous one, and every present child of a level is listed no later than the level after it. |
| Layout.NextLevel | src/components/MindMap.tsx:260-270 | One pass yields, each once, exactly the present unprocessed children of the current level, and records them as processed. |
| Layout.GrowStep | src/components/MindMap.tsx:253-272 | Appending the next level keeps the level loop's invariant. |
| Layout.ParentAngles | src/components/MindMap.tsx:297-299 | Every angle returned is the recorded angle of a placed parent, and there is none exactly when no parent is placed yet. |
| Layout.ParentAnglesAgree | src/components/MindMap.tsx:297-299 | Only the angles of placed parents matter. |
| Layout.RingEvenlySpaced | src/components/MindMap.tsx:288-295 | Nodes without placed parents start at angle 0 and are spaced 2π/count apart. |
| Layout.RingFansOut | src/components/MindMap.tsx:301-304 | Nodes with placed parents step by π/6 from one index to the next. |
| Layout.Place | src/components/MindMap.tsx:277-313 | Every present, not manually positioned node of a ring lies on the circle of radius 300 × level around the centre, at its recorded angle. Only coordinates change; manually positioned and unringed nodes stay. |
| Layout.PlaceLevel | src/components/MindMap.tsx:290-312 | One level extends the placement invariant over all its positions. |
| Layout.PlaceOne | src/components/MindMap.tsx:291-311 | One node gets its angle and ring position, or is skipped when absent or manually positioned. |
| Layout.PlaceStep | src/components/MindMap.tsx:291-311 | One placement step keeps every earlier node on its ring and moves nothing else. |
| Layout.CheckOverlap | src/components/MindMap.tsx:322-350 | Reports an overlap exactly when some competitor is closer than 80, and otherwise changes nothing. Only coordinates change; manually positioned nodes never move. |
| Layout.RelaxNode | src/components/MindMap.tsx:319-356 | At most 10 passes. Stopping early means the node is no longer crowded. Manually positioned and id-less nodes never move. |
| Layout.Relax | src/components/MindMap.tsx:316-357 | Only coordinates change; manually positioned and id-less nodes never move. |
| Layout.LevelsOfFrame | src/components/MindMap.tsx:246-274 | The levels depend only on the keys and the children arrays. |
| Layout.RadialLayout | src/components/MindMap.tsx:235-313 | The root goes to the centre unless it is dragged or manually positioned, when it keeps its place. The levels are the breadth-first levels, and every ring node is on its ring around the root. |
| Layout.RootNotRinged | src/components/MindMap.tsx:246-247 | The root appears on level 0 only. |
| Layout.CalculateTreeLayout | src/components/MindMap.tsx:225-361 | A map without its root is returned as is. Otherwise only coordinates change: keys, links, root, connections and manually positioned nodes stay. |
| Editor.WheelScale | src/components/MindMap.tsx:608-612 | The ctrl-wheel scale stays in [0.1, 2] and is the old scale times 0.9 or 1.1 when that fits. Scrolling down never grows it and scrolling up never shrinks it. |
| Editor.ZoomIn | src/components/MindMap.tsx:674-676 | Grows by 20 % with a cap of 2, and never shrinks a scale within range. |
| Editor.ZoomOut | src/components/MindMap.tsx:678-680 | Shrinks by 20 % with a floor of 0.1, and never grows a scale within range. |
| Editor.ZoomKeepsRange | src/components/MindMap.tsx:674-680 | Both buttons keep a scale in [0.1, 2] in range. |
| Editor.ZoomInThenOut | src/components/MindMap.tsx:674-680 | Zooming in and then out never ends above the start. |
| Editor.ToolForKey | src/components/MindMap.tsx:689-694 | Exactly the keys v, n, c and h choose a tool. |
| Editor.ToolKeysAgree | src/components/MindMap.tsx:689-694 | Every tool has exactly one shortcut key. |
| Editor.ZoomForKey | src/components/MindMap.tsx:696-699 | Exactly =, - and 0 are zoom keys, and none of them is a tool key. |
| Editor.ChildOffset | src/components/MindMap.tsx:512-513 | Draws in [0, 1) give an offset in [-100, 100) on each axis. |
| Editor.Keep | src/components/MindMap.tsx:593 | Keeps exactly the ids of the order that are still keys, and no id twice if the order had none twice. |
| Editor.KeepAppend | src/components/MindMap.tsx:593 | Keeping distributes over concatenation, so deleting keys leaves the survivors in their old relative order. |
| Editor.Touch | src/components/MindMap.tsx:535 | The order afterwards holds the old ids and the written key, and repeats none if the old order repeated none. |
| Editor.TouchEnumerates | src/components/MindMap.tsx:527-537 | After an insertion the order lists every key exactly once. |
| Editor.KeepEnumerates | src/components/MindMap.tsx:587-597 | After removals the order lists every remaining key exactly once. |
| Editor.CreateNodeKeeps | src/components/MindMap.tsx:812-843 | A created node keeps the order an enumeration and, with a fresh id, the arrays mirrored. |
| Editor.LaidOutKeepsLinks | src/components/MindMap.tsx:225-361 | A layout keeps every id, child array and parent array, so it keeps the arrays mirrored. |
| Editor.MindMapEditor.constructor | src/components/MindMap.tsx:154-206 | The given map, or an empty map with an empty root id; scale 1, no translation, select tool, idle drag, nothing pending. |
| Editor.MindMapEditor.ApplyLayout | src/components/MindMap.tsx:225-361 | The map is replaced by a layout of itself; nothing else changes. |
| Editor.MindMapEditor.LinkAndLayout | src/components/MindMap.tsx:441-457 | A link followed by a layout. The linked pair stays linked and the arrays stay mirrored. |
| Editor.MindMapEditor.HandleNodeDragStart | src/components/MindMap.tsx:363-386 | The drag state records the node, offset and start. The mode is wire (started at this node) under the wire tool, otherwise move. |
| Editor.MindMapEditor.HandleNodeDrag | src/components/MindMap.tsx:388-434 | The node moves and becomes manually positioned. In wire mode the target becomes the nearest eligible node; nothing else changes. |
| Editor.MindMapEditor.HandleNodeDragEnd | src/components/MindMap.tsx:436-475 | Without a dragged node nothing happens. A wire drag with a start and a target links and lays out; a move drag lays out; a wire drag without a target changes nothing. Then the drag resets. |
| Editor.MindMapEditor.HandleDeleteConnection | src/components/MindMap.tsx:477-505 | The map becomes `Graph.DeleteConnection` of it and stays mirrored. |
| Editor.MindMapEditor.AddChildNode | src/components/MindMap.tsx:507-541 | The map becomes `Graph.AddChild` of it with the drawn offset. The new id goes last in the order; no layout runs. |
| Editor.MindMapEditor.UpdateNodeText | src/components/MindMap.tsx:543-554 | Only the node's text changes. |
| Editor.MindMapEditor.CreateNewNode | src/components/MindMap.tsx:812-843 | A created node at the centre, selected, last in the order. |
| Editor.MindMapEditor.HandleDeleteNode | src/components/MindMap.tsx:556-606 | The root is refused outright. Otherwise the map becomes a layout of `Graph.DeleteNode` of it, the order keeps the survivors, and a selection of the node is cleared. |
| Editor.MindMapEditor.HandleNodeSelection | src/components/MindMap.tsx:894-943 | Under the wire tool the first click sets the source, a click on another node links it under that node and lays out, and a repeat click cancels. The clicked node is always selected. |
| Editor.MindMapEditor.HandleConnectionPointClick | src/components/MindMap.tsx:953-1032 | The first anchor becomes pending and the same anchor again cancels. Any other anchor is connected with the fresh id, then the pending state clears and the map is laid out. |
| Editor.MindMapEditor.SetTool | src/components/MindMap.tsx:945-950 | A tool change drops the pending anchor, and drops the node-click source unless the new tool is the wire tool. Choosing the current tool changes nothing. |
| Editor.MindMapEditor.HandleWheel | src/components/MindMap.tsx:608-617 | Ctrl zooms by `Editor.WheelScale`; otherwise the view pans by the wheel deltas. |
| Editor.MindMapEditor.HandleZoomIn | src/components/MindMap.tsx:674-676 | Only the scale changes, to `Editor.ZoomIn` of it. |
| Editor.MindMapEditor.HandleZoomOut | src/components/MindMap.tsx:678-680 | Only the scale changes, to `Editor.ZoomOut` of it. |
| Editor.MindMapEditor.HandleResetView | src/components/MindMap.tsx:682-686 | Scale 1 and no translation; nothing else changes. |
| Editor.MindMapEditor.HandleKeyDown | src/components/MindMap.tsx:689-700 | Tool keys set the tool as `SetTool` does, the zoom keys zoom or reset, and any other key changes nothing. |
| Generator.NextTerminator | src/utils/aiService.ts:65 | The first `.`, `!` or `?` at or after the index, or the end. |
| Generator.RunEnd | src/utils/aiService.ts:65 | The end of the maximal run of terminators starting at the index. |
| Generator.Sentences | src/utils/aiService.ts:65 | At least one piece, none holding a terminator. |
| Generator.SentencesOfPlainText | src/utils/aiService.ts:65 | Text without terminators is one sentence. |
| Generator.RunEndOf | src/utils/aiService.ts:65 | A run of terminators that ends the text or is followed by another character is exactly the run `RunEnd` finds. |
| Generator.SentencesCons | src/utils/aiService.ts:65 | Text free of terminators, then a maximal run of terminators, then the rest: the first sentence is that text and the others are the sentences of the rest. With the plain-text case this fixes the split of every text as `split(/[.!?]+/)` does. |
| Generator.UsedSentences | src/utils/aiService.ts:65-66 | At most `maxBranches` sentences are used, each non-blank and free of terminators. |
| Generator.RootText | src/utils/aiService.ts:52 | The root title always ends in `...`. |
| Generator.RootTextOfShortContent | src/utils/aiService.ts:52 | Content with fewer than five spaces, so at most five words, is the whole title before `...`. |
| Generator.FirstText | src/utils/aiService.ts:77 | A sentence of up to 50 characters is kept whole; a longer one is cut at 50 with `...`. |
| Generator.TypeFor | src/utils/aiService.ts:82 | Index 0, 1 and 2 mod 3 give keyPoint, note and default, and exactly those. |
| Generator.TypeCycles | src/utils/aiService.ts:82 | The type repeats every three indexes. |
| Generator.LeafCount | src/utils/aiService.ts:89-91 | At most 4 and at most the number of long words. It is zero unless depth ≥ 2 and the sentence is longer than 15; then it is at least one when there is a word. |
| Generator.Attach | src/utils/aiService.ts:75-86 | Attaching adds exactly the new node's key. |
| Generator.Leaves | src/utils/aiService.ts:93-113 | The inner loop only adds keys. |
| Generator.Branch | src/utils/aiService.ts:69-115 | One outer pass only adds keys. |
| Generator.Branches | src/utils/aiService.ts:69-116 | The outer loop only adds keys. |
| Generator.GenerateFromText | src/utils/aiService.ts:33-123 | The two nested loops build exactly the map the fold `FromText` describes. |
| Generator.AddBranch | src/utils/aiService.ts:70-115 | One pass of the outer loop, with its inner loop, is one `Branch` step. |
| Generator.Generate | src/utils/aiService.ts:143-163 | Text input is generated directly. Every result has no connections and the root's drawn id. |
| Generator.GenerateUsesTemplates | src/utils/aiService.ts:126-158 | A file input ignores its content; a url input sees its content only through the fixed template. |
| Generator.LeavesGood | src/utils/aiService.ts:93-113 | The inner loop keeps the map a mirrored tree. |
| Generator.LeavesFrame | src/utils/aiService.ts:93-113 | The inner loop changes only the parent's children, appending exactly the new leaf ids. |
| Generator.LeavesMade | src/utils/aiService.ts:93-113 | Each second-level node is stored under its id: up to three consecutive words (`Generator.LeafText`, fewer when the sentence has fewer than three long words), type by index, its branch as only parent. |
| Generator.BranchesGood | src/utils/aiService.ts:69-116 | The outer loop keeps the map a mirrored tree. |
| Generator.BranchesFrame | src/utils/aiService.ts:69-116 | The outer loop changes only the root's children, appending exactly the kept first-level ids. |
| Generator.BranchesMade | src/utils/aiService.ts:69-116 | From sentence `i` on, every used sentence longer than five characters after trimming gets its first-level node, with exactly its second-level nodes as children. |
| Generator.GeneratedTree | src/utils/aiService.ts:33-123 | The generated map is a tree: ids match keys, arrays mirror each other, every listed id is a key, the root has no parent and every other node exactly one. No connections. |
| Generator.GeneratedRoot | src/utils/aiService.ts:49-58 | The root keeps its title, type and place at the centre. Its children are the kept first-level ids, at most one per used sentence. |
| Generator.GeneratedBranch | src/utils/aiService.ts:69-113 | A kept sentence yields its first-level node (cut title, type by index, root as parent) with exactly its second-level nodes as children. |

## Left out

- Aliasing: the source mutates node objects shared between the old and new map through a shallow copy. The model updates map values in sequence. React state batching, stale closures and queued updaters are not modelled; an updater runs at once, in call order.
- Graph.UpdateText: a missing id is a no-op in the model. The source writes a record holding only `text` under that id.
- Panning and canvas clicks in `handleMouseDown`, `handleMouseMove` and `handleMouseUp` (MindMap.tsx:619-671) are left out. Panning only moves the view. The mouse position that `handleMouseMove` records reaches the model as the `mouse` parameter of `Connections.ConnectionLayer.Redraw`. With the node tool and no node being dragged, a mousedown on the canvas adds a node (MindMap.tsx:622-646) that is not `createNewNode`'s (`Graph.CreateNode`):
  - it sits at the click point, taken as the offset divided by the scale minus the translation;
  - it is always titled `New Node`;
  - it has no `type`, is `manuallyPositioned`, and is white or near-black by dark mode;
  - it never becomes the root, even in an empty map, where `rootId` stays `''` and every later layout returns the map unchanged;
  - it is not selected, and no layout runs.
- `activeConnectionPoint` is never set to a value other than null in the source. The model keeps the field, and the preview then ends at the mouse.
- Cosine, sine, arctangent, square root, pi, uuids and `Math.random` are parameters. Uuid uniqueness is an assumption (`Graph.Fresh`, `Generator.Injective`). The window size is the editor's `centre`.
- The generator's 1500 ms delay and its promise are left out; the result is returned directly.
- Connections are always a list, as the initial state guarantees.
- Generator: `maxDepth` and `maxBranches` are integers, not JavaScript numbers; fractional and NaN values are not modelled.
- Status messages, console output, dark-mode toggling, export and import to JSON, and the modals are left out, being presentation.
- `handleNodeTypeChange` (MindMap.tsx:796-811), `handleNodeFormattingChange` (MindMap.tsx:873-888) and `handleMapGenerated` (MindMap.tsx:851-870) are left out. Each writes one field or replaces the whole map. The card-side formatting records they receive are modelled (`NodeView.UpdateFormatting` and the rest).
- Graph.DeleteTreeAsWritten: the recursion depth is bounded by a `fuel` argument; `None` stands for the bound being hit.
- Editor.MindMapEditor.HandleDeleteNode, Editor.MindMapEditor.HandleConnectionPointClick: the editor class runs the corrected `Graph.DeleteNode` and `Graph.Connect`. On the inputs of the two findings the source throws instead. A node reachable from itself through `children` below the deleted node gives a `RangeError` (MindMap.tsx:580-590). A pending anchor whose node was deleted gives a TypeError (MindMap.tsx:1009-1016). On those inputs the model returns a laid-out state. Wherever the source returns, the two agree: `Graph.DeleteNodeAsWrittenAgrees` for the delete and `Graph.ConnectAsWritten` for the connect.
- Bezier drawing with its control-point offsets (Connections.tsx:137-144), jitter amplitude, colours, dashes and arrowheads are left out. The model takes the sampled points as the 20 jittered samples of `curve`.
- Node.tsx keyboard shortcuts, font selection and text-change forwarding are left out; they only call the modelled updates.
- Text lengths and offsets: JavaScript's `length`, `substring`, `slice` and `selectionStart` count UTF-16 code units, while the model's strings are sequences of Unicode code points. For text outside the Basic Multilingual Plane (an emoji is two code units), the generator's thresholds (longer than 5, 15 and 3) and its 50-character title cut, and the card's cursor line, fall at different places than the model says. `Seqs.IsSpace` does follow the full set of characters that `trim` removes.

## Findings

| source | as written | input that shows it | evidently intended | confidence | as-written member | corrected member |
|---|---|---|---|---|---|---|
| src/components/MindMap.tsx:580-590 | `deleteNodeAndChildren` recurses into each present child before deleting it and keeps no visited set | a node `x` made its own child and parent by connecting its top anchor to its right anchor (`Graph.SelfLoopFromAnchors`), below a deleted node `p` | delete the node and everything reachable through `children` once each, which terminates on cycles | not executed | Graph.DeleteNodeAsWritten, Graph.DeleteNodeAsWrittenUnbounded | Graph.DeleteNode, Graph.SubtreeIsClosure, Graph.DeleteNodeRemovesSubtree |
| src/components/MindMap.tsx:1009-1016 | after the duplicate check, the updater reads `updatedNodes[...].children` and `.parentIds` without checking that the nodes exist | pick an anchor of a non-root node as pending source, delete that node, then click an anchor of another node | a missing node makes the connect a no-op | not executed | Graph.ConnectAsWritten, Graph.ConnectAfterDeleteThrows | Graph.Connect, Graph.ConnectNoDuplicate, Graph.ConnectMirrored |
