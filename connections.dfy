/** The connection layer: where the four anchors of a node card sit, which
    points of each drawn curve are kept for hit-testing, the point-to-segment
    distance, the hover search and the path map the layer rebuilds on every
    redraw. */
module Connections {
  import opened Types

  const NodeWidth: real := 200.0
  const NodeHeight: real := 60.0
  /** The curve is sampled at `i / Segments` for `i = 1 .. Segments`. */
  const Segments: nat := 20
  /** Hover distance in canvas units, compared squared. */
  const HitDistance: real := 8.0

  /** `getConnectionPointPosition`: the anchor of a side of the node's
      200 × 60 box; a node that does not exist gives the origin. */
  function AnchorPosition(nodes: map<Id, MindMapNode>, nodeId: Id, side: Anchor): (r: Position)
    ensures nodeId !in nodes ==> r == Origin
    ensures nodeId in nodes ==>
      var n := nodes[nodeId];
      r == match side
        case Top => Position(n.x + 100.0, n.y)
        case Right => Position(n.x + 200.0, n.y + 30.0)
        case Bottom => Position(n.x + 100.0, n.y + 60.0)
        case Left => Position(n.x, n.y + 30.0)
  {
    if nodeId !in nodes then Origin
    else
      var n := nodes[nodeId];
      match side
      case Top => Position(n.x + NodeWidth / 2.0, n.y)
      case Right => Position(n.x + NodeWidth, n.y + NodeHeight / 2.0)
      case Bottom => Position(n.x + NodeWidth / 2.0, n.y + NodeHeight)
      case Left => Position(n.x, n.y + NodeHeight / 2.0)
  }

  /** The anchors lie on the border of the node's box, opposite anchors are
      mirror images through the box centre, and moving a node moves its
      anchors by the same amount. */
  lemma AnchorGeometry(nodes: map<Id, MindMapNode>, nodeId: Id, d: Position)
    requires nodeId in nodes
    ensures var n := nodes[nodeId];
      forall side: Anchor ::
        var p := AnchorPosition(nodes, nodeId, side);
        n.x <= p.x <= n.x + NodeWidth && n.y <= p.y <= n.y + NodeHeight
        && (p.x == n.x || p.x == n.x + NodeWidth || p.y == n.y || p.y == n.y + NodeHeight)
    ensures var c := Position(nodes[nodeId].x + NodeWidth / 2.0, nodes[nodeId].y + NodeHeight / 2.0);
      && Add(AnchorPosition(nodes, nodeId, Top), AnchorPosition(nodes, nodeId, Bottom)) == Add(c, c)
      && Add(AnchorPosition(nodes, nodeId, Anchor.Left), AnchorPosition(nodes, nodeId, Anchor.Right)) == Add(c, c)
    ensures var n := nodes[nodeId];
      var moved := nodes[nodeId := n.(x := n.x + d.x, y := n.y + d.y)];
      forall side: Anchor :: AnchorPosition(moved, nodeId, side) == Add(AnchorPosition(nodes, nodeId, side), d)
  {
  }

  /** The curve's unjittered midpoint, returned for a delete button. */
  function Midpoint(a: Position, b: Position): (m: Position)
    ensures Add(m, m) == Add(a, b)
  {
    Position((a.x + b.x) / 2.0, (a.y + b.y) / 2.0)
  }

  /** The even-numbered samples `i = 2, 4, …` of a list holding samples
      `i = 1, 2, …` (sample `i` at index `i - 1`). */
  function EverySecond(samples: seq<Position>): (r: seq<Position>)
    ensures |r| == |samples| / 2
  {
    seq(|samples| / 2, k requires 0 <= k < |samples| / 2 => samples[2 * k + 1])
  }

  lemma EverySecondSnoc(samples: seq<Position>, p: Position)
    ensures EverySecond(samples + [p]) == EverySecond(samples) + (if |samples| % 2 == 1 then [p] else [])
  {
    var s := samples + [p];
    if |samples| % 2 == 1 {
      assert |s| / 2 == |samples| / 2 + 1;
      assert s[2 * (|samples| / 2) + 1] == p;
    } else {
      assert |s| / 2 == |samples| / 2;
    }
  }

  /** The points a stored connection keeps for hit-testing: the exact start,
      the jittered samples `i = 2, 4, …, 20`, and the exact end. */
  function RetainedPath(start: Position, samples: seq<Position>, end: Position): seq<Position> {
    [start] + EverySecond(samples) + [end]
  }

  /** A stored path has 12 points, begins and ends exactly at the anchors, and
      holds the even samples in order between them. */
  lemma RetainedPathShape(start: Position, samples: seq<Position>, end: Position)
    requires |samples| == Segments
    ensures var r := RetainedPath(start, samples, end);
      && |r| == 12 && r[0] == start && r[11] == end
      && forall k | 0 <= k < 10 :: r[k + 1] == samples[2 * k + 1]
  {
  }

  /** `distanceToLineSegment`'s projection parameter: the position of `q`'s
      foot along `p1`–`p2`, or `-1` when the segment has length zero. */
  function Projection(p1: Position, p2: Position, q: Position): real {
    var dot := Dot(Sub(q, p1), Sub(p2, p1));
    var lenSq := Norm2(Sub(p2, p1));
    if lenSq != 0.0 then dot / lenSq else -1.0
  }

  /** The point of the segment nearest to `q`: the first end before the
      segment, the second end after it, the projection in between. */
  function Nearest(p1: Position, p2: Position, q: Position): Position {
    var param := Projection(p1, p2, q);
    if param < 0.0 then p1
    else if param > 1.0 then p2
    else PointAt(p1, p2, param)
  }

  /** The point at parameter `t` of the segment. */
  function PointAt(p1: Position, p2: Position, t: real): Position {
    Add(p1, Scale(t, Sub(p2, p1)))
  }

  /** The squared distance from `q` to the segment `p1`–`p2`. */
  function SegDistSq(p1: Position, p2: Position, q: Position): (r: real)
    ensures r >= 0.0
  {
    DistSq(q, Nearest(p1, p2, q))
  }

  /** The projection clamped to `[0, 1]`. */
  function ClampedParam(p1: Position, p2: Position, q: Position): (t: real)
    ensures 0.0 <= t <= 1.0
  {
    var param := Projection(p1, p2, q);
    if param < 0.0 then 0.0 else if param > 1.0 then 1.0 else param
  }

  lemma PointAtZero(p1: Position, p2: Position)
    ensures PointAt(p1, p2, 0.0) == p1
  {
  }

  lemma PointAtOne(p1: Position, p2: Position)
    ensures PointAt(p1, p2, 1.0) == p2
  {
  }

  /** The three branches agree with the point at the clamped parameter. */
  lemma NearestIsClamped(p1: Position, p2: Position, q: Position)
    ensures Nearest(p1, p2, q) == PointAt(p1, p2, ClampedParam(p1, p2, q))
  {
    PointAtZero(p1, p2);
    PointAtOne(p1, p2);
  }

  /** The squared distance to the point at parameter `t`, as a polynomial in `t`
      with coefficients `a` (distance to the first end), `d` (the dot product)
      and `l` (the squared length). */
  function Quad(a: real, d: real, l: real, t: real): real {
    a - 2.0 * Mul(t, d) + Mul(t, Mul(t, l))
  }

  lemma ExpandCoordinate(a: real, c: real, s: real)
    ensures Mul(a - Mul(s, c), a - Mul(s, c)) == Mul(a, a) - 2.0 * Mul(s, Mul(a, c)) + Mul(s, Mul(s, Mul(c, c)))
  {
  }

  lemma Expand(u: Position, v: Position, t: real)
    ensures Norm2(Sub(u, Scale(t, v))) == Quad(Norm2(u), Dot(u, v), Norm2(v), t)
  {
    ExpandCoordinate(u.x, v.x, t);
    ExpandCoordinate(u.y, v.y, t);
  }

  lemma DistAt(p1: Position, p2: Position, q: Position, t: real)
    ensures DistSq(q, PointAt(p1, p2, t))
      == Quad(DistSq(q, p1), Dot(Sub(q, p1), Sub(p2, p1)), Norm2(Sub(p2, p1)), t)
  {
    assert Sub(q, PointAt(p1, p2, t)) == Sub(Sub(q, p1), Scale(t, Sub(p2, p1)));
    Expand(Sub(q, p1), Sub(p2, p1), t);
  }

  lemma QuadEnds(a: real, d: real, l: real)
    ensures Quad(a, d, l, 0.0) == a
    ensures Quad(a, d, l, 1.0) == a - 2.0 * d + l
  {
  }

  /** At the projection `t = d / l` the polynomial lies below both ends. */
  lemma QuadInterior(a: real, d: real, l: real, t: real)
    requires l > 0.0 && 0.0 <= t <= 1.0 && Mul(t, l) == d
    ensures Quad(a, d, l, t) <= a
    ensures Quad(a, d, l, t) <= a - 2.0 * d + l
  {
    assert Mul(t, Mul(t, l)) == Mul(t, d);
    MulNonNeg(t, d);
    MulNonNeg(1.0 - t, l - d);
    assert Mul(1.0 - t, l - d) == l - 2.0 * d + Mul(t, d);
  }

  lemma QuadBounds(a: real, d: real, l: real, t: real)
    requires l > 0.0 && 0.0 <= t <= 1.0
    requires d < 0.0 ==> t == 0.0
    requires d > l ==> t == 1.0
    requires 0.0 <= d <= l ==> Mul(t, l) == d
    ensures Quad(a, d, l, t) <= Quad(a, d, l, 0.0)
    ensures Quad(a, d, l, t) <= Quad(a, d, l, 1.0)
  {
    QuadEnds(a, d, l);
    if 0.0 <= d <= l {
      QuadInterior(a, d, l, t);
    }
  }

  lemma DivSign(x: real, y: real)
    requires y > 0.0
    ensures x / y < 0.0 <==> x < 0.0
  {
    assert x == (x / y) * y;
  }

  lemma DivAboveOne(x: real, y: real)
    requires y > 0.0
    ensures x / y > 1.0 <==> x > y
  {
    assert x == (x / y) * y;
    if x / y > 1.0 {
      assert (x / y - 1.0) * y > 0.0;
    }
    if x > y {
      assert (x / y - 1.0) * y == x - y;
    }
  }

  lemma DivTimes(x: real, y: real)
    requires y > 0.0
    ensures Mul(x / y, y) == x
  {
  }

  /** On a proper segment the clamp is decided by the dot product alone:
      before the first end, past the second, or the exact projection. */
  lemma ClampedParamCases(p1: Position, p2: Position, q: Position)
    requires p1 != p2
    ensures var t, d, l := ClampedParam(p1, p2, q), Dot(Sub(q, p1), Sub(p2, p1)), Norm2(Sub(p2, p1));
      && l > 0.0
      && (d < 0.0 ==> t == 0.0)
      && (d > l ==> t == 1.0)
      && (0.0 <= d <= l ==> Mul(t, l) == d)
  {
    var d, l := Dot(Sub(q, p1), Sub(p2, p1)), Norm2(Sub(p2, p1));
    Norm2Pos(Sub(p2, p1));
    assert Projection(p1, p2, q) == d / l;
    var t := ClampedParam(p1, p2, q);
    DivSign(d, l);
    DivAboveOne(d, l);
    if d < 0.0 {
      assert t == 0.0;
    } else if d > l {
      assert t == 1.0;
    } else {
      assert t == d / l;
      DivTimes(d, l);
    }
  }

  lemma SegDistQuad(p1: Position, p2: Position, q: Position)
    ensures SegDistSq(p1, p2, q)
      == Quad(DistSq(q, p1), Dot(Sub(q, p1), Sub(p2, p1)), Norm2(Sub(p2, p1)), ClampedParam(p1, p2, q))
  {
    NearestIsClamped(p1, p2, q);
    DistAt(p1, p2, q, ClampedParam(p1, p2, q));
  }

  lemma EndQuad(p1: Position, p2: Position, q: Position)
    ensures DistSq(q, p2) == Quad(DistSq(q, p1), Dot(Sub(q, p1), Sub(p2, p1)), Norm2(Sub(p2, p1)), 1.0)
    ensures DistSq(q, p1) == Quad(DistSq(q, p1), Dot(Sub(q, p1), Sub(p2, p1)), Norm2(Sub(p2, p1)), 0.0)
  {
    DistAt(p1, p2, q, 1.0);
    PointAtOne(p1, p2);
    QuadEnds(DistSq(q, p1), Dot(Sub(q, p1), Sub(p2, p1)), Norm2(Sub(p2, p1)));
  }

  /** The segment is never farther from `q` than either of its ends. */
  lemma SegDistAtMostEnds(p1: Position, p2: Position, q: Position)
    ensures SegDistSq(p1, p2, q) <= DistSq(q, p1)
    ensures SegDistSq(p1, p2, q) <= DistSq(q, p2)
  {
    if p1 == p2 {
      NearestIsClamped(p1, p2, q);
      PointAtZero(p1, p2);
      assert ClampedParam(p1, p2, q) == 0.0;
    } else {
      ClampedParamCases(p1, p2, q);
      SegDistQuad(p1, p2, q);
      EndQuad(p1, p2, q);
      QuadBounds(DistSq(q, p1), Dot(Sub(q, p1), Sub(p2, p1)), Norm2(Sub(p2, p1)), ClampedParam(p1, p2, q));
    }
  }

  /** A degenerate segment is its single point. */
  lemma SegDistDegenerate(p: Position, q: Position)
    ensures SegDistSq(p, p, q) == DistSq(q, p)
  {
    assert Sub(p, p) == Origin;
  }

  lemma SegDistAtStart(p1: Position, p2: Position)
    ensures SegDistSq(p1, p2, p1) == 0.0
  {
    SegDistAtMostEnds(p1, p2, p1);
    DistSqSelf(p1);
  }

  lemma SegDistAtEnd(p1: Position, p2: Position)
    ensures SegDistSq(p1, p2, p2) == 0.0
  {
    SegDistAtMostEnds(p1, p2, p2);
    DistSqSelf(p2);
  }

  /** Both ends lie on the segment. */
  lemma SegDistAtEnds(p1: Position, p2: Position)
    ensures SegDistSq(p1, p2, p1) == 0.0
    ensures SegDistSq(p1, p2, p2) == 0.0
  {
    SegDistAtStart(p1, p2);
    SegDistAtEnd(p1, p2);
  }

  /** A query whose foot falls before the first end is measured to that end,
      one whose foot falls past the second end to that end. */
  lemma SegDistOutside(p1: Position, p2: Position, q: Position)
    requires p1 != p2
    ensures Dot(Sub(q, p1), Sub(p2, p1)) < 0.0 ==> SegDistSq(p1, p2, q) == DistSq(q, p1)
    ensures Dot(Sub(q, p1), Sub(p2, p1)) > Norm2(Sub(p2, p1)) ==> SegDistSq(p1, p2, q) == DistSq(q, p2)
  {
    ClampedParamCases(p1, p2, q);
    NearestIsClamped(p1, p2, q);
    PointAtZero(p1, p2);
    PointAtOne(p1, p2);
  }

  /** Some consecutive pair of the path is within the hover distance of `q`. */
  predicate NearPath(points: seq<Position>, q: Position) {
    exists i | 0 <= i < |points| - 1 :: SegDistSq(points[i], points[i + 1], q) < HitDistance * HitDistance
  }

  /** A query at one of a stored path's points is near the path, as long as
      the path has a segment at all. */
  lemma NearPathAtPoint(points: seq<Position>, k: nat)
    requires |points| >= 2 && k < |points|
    ensures NearPath(points, points[k])
  {
    if k < |points| - 1 {
      SegDistAtEnds(points[k], points[k + 1]);
    } else {
      SegDistAtEnds(points[k - 1], points[k]);
    }
  }

  /** A stored path is always hit at both of its anchors. */
  lemma RetainedPathHitAtAnchors(start: Position, samples: seq<Position>, end: Position)
    requires |samples| == Segments
    ensures NearPath(RetainedPath(start, samples, end), start)
    ensures NearPath(RetainedPath(start, samples, end), end)
  {
    RetainedPathShape(start, samples, end);
    NearPathAtPoint(RetainedPath(start, samples, end), 0);
    NearPathAtPoint(RetainedPath(start, samples, end), 11);
  }

  /** What the hover state holds: the connection and where its delete button
      goes, in screen units. */
  datatype ConnectionInfo = ConnectionInfo(id: Id, midX: real, midY: real)

  /** Whether the connection's stored path passes near `q`. */
  predicate Hit(paths: map<Id, seq<Position>>, c: NodeConnection, q: Position) {
    c.id in paths && NearPath(paths[c.id], q)
  }

  /** The first connection, in list order, that the query hits. */
  function FirstHit(paths: map<Id, seq<Position>>, conns: seq<NodeConnection>, q: Position): (r: Option<nat>)
    ensures r.Some? ==> (r.value < |conns| && Hit(paths, conns[r.value], q)
      && forall j | 0 <= j < r.value :: !Hit(paths, conns[j], q))
    ensures r.None? ==> forall j | 0 <= j < |conns| :: !Hit(paths, conns[j], q)
  {
    if conns == [] then None
    else if Hit(paths, conns[0], q) then Some(0)
    else
      var rest := FirstHit(paths, conns[1..], q);
      if rest.Some? then Some(rest.value + 1) else None
  }

  /** The delete button of a connection: the midpoint of its two anchors (not
      of the jittered curve), scaled to the screen. */
  function DeleteButton(nodes: map<Id, MindMapNode>, c: NodeConnection, scale: real): ConnectionInfo {
    var s := AnchorPosition(nodes, c.sourceId, c.sourcePoint);
    var t := AnchorPosition(nodes, c.targetId, c.targetPoint);
    ConnectionInfo(c.id, ((s.x + t.x) / 2.0) * scale, ((s.y + t.y) / 2.0) * scale)
  }

  /** The hover state after a mouse move at canvas offset `mouse`. */
  function HoverAt(nodes: map<Id, MindMapNode>, paths: map<Id, seq<Position>>, conns: seq<NodeConnection>,
                   mouse: Position, scale: real): Option<ConnectionInfo>
    requires scale > 0.0
  {
    var hit := FirstHit(paths, conns, Position(mouse.x / scale, mouse.y / scale));
    if hit.Some? then Some(DeleteButton(nodes, conns[hit.value], scale)) else None
  }

  /** The paths one redraw stores: for each connection, in list order, whose two
      nodes exist and whose id is not empty, its retained points under its id
      (a later connection with the same id overwrites an earlier one).
      `curve(k, a, b)` gives the 20 jittered samples drawn for the k-th
      connection. */
  function StoredPaths(nodes: map<Id, MindMapNode>, conns: seq<NodeConnection>,
                       curve: (nat, Position, Position) -> seq<Position>, from: nat,
                       acc: map<Id, seq<Position>>): map<Id, seq<Position>>
    requires from <= |conns|
    decreases |conns| - from
  {
    if from == |conns| then acc
    else StoredPaths(nodes, conns, curve, from + 1, StoreOne(nodes, conns[from], curve(from, Source(nodes, conns[from]), Target(nodes, conns[from])), acc))
  }

  function Source(nodes: map<Id, MindMapNode>, c: NodeConnection): Position {
    AnchorPosition(nodes, c.sourceId, c.sourcePoint)
  }

  function Target(nodes: map<Id, MindMapNode>, c: NodeConnection): Position {
    AnchorPosition(nodes, c.targetId, c.targetPoint)
  }

  /** The map after one connection of a redraw, drawn with `samples`. */
  function StoreOne(nodes: map<Id, MindMapNode>, c: NodeConnection, samples: seq<Position>,
                    acc: map<Id, seq<Position>>): map<Id, seq<Position>> {
    if c.sourceId in nodes && c.targetId in nodes && c.id != "" then
      acc[c.id := RetainedPath(Source(nodes, c), samples, Target(nodes, c))]
    else acc
  }

  /** Both ends of the connection exist, so a redraw draws its curve. */
  predicate Drawable(nodes: map<Id, MindMapNode>, c: NodeConnection) {
    c.sourceId in nodes && c.targetId in nodes
  }

  /** The connection is drawn and its id is truthy, so its path is stored;
      a connection with the empty id is drawn but never stored. */
  predicate Stored(nodes: map<Id, MindMapNode>, c: NodeConnection) {
    Drawable(nodes, c) && Truthy(Some(c.id))
  }

  /** A stored path runs from the connection's source anchor to its target
      anchor through twelve points. */
  predicate PathOf(nodes: map<Id, MindMapNode>, c: NodeConnection, path: seq<Position>) {
    && |path| == 12
    && path[0] == AnchorPosition(nodes, c.sourceId, c.sourcePoint)
    && path[11] == AnchorPosition(nodes, c.targetId, c.targetPoint)
  }

  /** One of the first `n` connections is stored, carries the id and has
      the path. */
  ghost predicate StoredBy(nodes: map<Id, MindMapNode>, conns: seq<NodeConnection>, n: nat, id: Id, path: seq<Position>) {
    exists i | 0 <= i < n && i < |conns| :: conns[i].id == id && Stored(nodes, conns[i]) && PathOf(nodes, conns[i], path)
  }

  /** One of the first `n` connections is stored and carries the id. */
  ghost predicate StoredAmong(nodes: map<Id, MindMapNode>, conns: seq<NodeConnection>, n: nat, id: Id) {
    exists i | 0 <= i < n && i < |conns| :: conns[i].id == id && Stored(nodes, conns[i])
  }

  /** One step of a redraw keeps both facts of `StoredPathsKeys` about the
      connections seen so far. */
  lemma StoreOneKeeps(nodes: map<Id, MindMapNode>, conns: seq<NodeConnection>, from: nat,
                      samples: seq<Position>, acc: map<Id, seq<Position>>)
    requires from < |conns| && |samples| == Segments
    requires forall id | id in acc :: StoredBy(nodes, conns, from, id, acc[id])
    requires forall id :: id in acc <==> StoredAmong(nodes, conns, from, id)
    ensures var acc' := StoreOne(nodes, conns[from], samples, acc);
      && (forall id | id in acc' :: StoredBy(nodes, conns, from + 1, id, acc'[id]))
      && (forall id :: id in acc' <==> StoredAmong(nodes, conns, from + 1, id))
  {
    var c := conns[from];
    var acc' := StoreOne(nodes, c, samples, acc);
    if Stored(nodes, c) {
      RetainedPathShape(Source(nodes, c), samples, Target(nodes, c));
      assert StoredBy(nodes, conns, from + 1, c.id, acc'[c.id]) by {
        assert conns[from].id == c.id && Stored(nodes, conns[from]) && PathOf(nodes, conns[from], acc'[c.id]);
      }
    }
    forall id | id in acc' ensures StoredBy(nodes, conns, from + 1, id, acc'[id]) {
      if id != c.id || !Stored(nodes, c) {
        assert acc'[id] == acc[id];
        var i :| 0 <= i < from && i < |conns| && conns[i].id == id && Stored(nodes, conns[i]) && PathOf(nodes, conns[i], acc[id]);
        assert 0 <= i < from + 1;
      }
    }
    forall id ensures id in acc' <==> StoredAmong(nodes, conns, from + 1, id) {
      if StoredAmong(nodes, conns, from + 1, id) {
        var i :| 0 <= i < from + 1 && i < |conns| && conns[i].id == id && Stored(nodes, conns[i]);
        if i < from { assert StoredAmong(nodes, conns, from, id); }
      }
      if id in acc' && (id != c.id || !Stored(nodes, c)) {
        var i :| 0 <= i < from && i < |conns| && conns[i].id == id && Stored(nodes, conns[i]);
        assert 0 <= i < from + 1;
      }
    }
  }

  /** After a redraw from an empty map, exactly the ids of connections that
      are drawn and have a non-empty id hold a path (so the empty id never
      does), and each stored path runs from the source anchor to the target
      anchor of such a connection with that id. */
  lemma {:induction false} StoredPathsKeys(nodes: map<Id, MindMapNode>, conns: seq<NodeConnection>,
                          curve: (nat, Position, Position) -> seq<Position>, from: nat,
                          acc: map<Id, seq<Position>>)
    requires from <= |conns|
    requires forall k, a, b :: |curve(k, a, b)| == Segments
    requires forall id | id in acc :: StoredBy(nodes, conns, from, id, acc[id])
    requires forall id :: id in acc <==> StoredAmong(nodes, conns, from, id)
    ensures var r := StoredPaths(nodes, conns, curve, from, acc);
      && (forall id :: id in r <==> StoredAmong(nodes, conns, |conns|, id))
      && (forall id | id in r :: StoredBy(nodes, conns, |conns|, id, r[id]))
      && "" !in r
    decreases |conns| - from
  {
    if from < |conns| {
      var c := conns[from];
      var samples := curve(from, Source(nodes, c), Target(nodes, c));
      StoreOneKeeps(nodes, conns, from, samples, acc);
      StoredPathsKeys(nodes, conns, curve, from + 1, StoreOne(nodes, c, samples, acc));
    }
  }

  /** The preview curve drawn while an anchor connection is pending: from the
      pending anchor to the active anchor if one is set, else to the mouse. */
  datatype Preview = Preview(start: Position, end: Position)

  /** The canvas layer with its hit-test map and hover state. */
  class ConnectionLayer {
    var paths: map<Id, seq<Position>>
    var hovered: Option<ConnectionInfo>

    constructor ()
      ensures paths == map[] && hovered.None?
    {
      paths := map[];
      hovered := None;
    }

    /** The hit-test part of `drawCurvedPath`: samples `i = 1 .. 20` are walked,
        the even ones are kept, and a path with a truthy connection id is
        stored with its exact ends; a preview path (no id) and a path whose id
        is the empty string are not stored. Returns the unjittered midpoint. */
    method DrawCurvedPath(start: Position, end: Position, samples: seq<Position>, connectionId: Option<Id>)
      returns (mid: Position)
      requires |samples| == Segments
      modifies this`paths
      ensures mid == Midpoint(start, end)
      ensures paths == if Truthy(connectionId) then old(paths)[connectionId.value := RetainedPath(start, samples, end)]
                       else old(paths)
    {
      var points: seq<Position> := [];
      if Truthy(connectionId) {
        points := [start];
      }
      var i := 1;
      while i <= Segments
        invariant 1 <= i <= Segments + 1
        invariant points == if Truthy(connectionId) then [start] + EverySecond(samples[..i - 1]) else []
        invariant paths == old(paths)
      {
        EverySecondSnoc(samples[..i - 1], samples[i - 1]);
        assert samples[..i] == samples[..i - 1] + [samples[i - 1]];
        if Truthy(connectionId) && i % 2 == 0 {
          points := points + [samples[i - 1]];
        }
        i := i + 1;
      }
      assert samples[..Segments] == samples;
      if Truthy(connectionId) {
        assert points == [start] + EverySecond(samples);
        points := points + [end];
        paths := paths[connectionId.value := points];
      }
      mid := Position((start.x + end.x) / 2.0, (start.y + end.y) / 2.0);
    }

    /** `isPointNearPath`: false when no path is stored under the id, else
        whether some consecutive pair is closer than the hover distance; the
        walk stops at the first such pair. */
    method IsPointNearPath(q: Position, connectionId: Id) returns (near: bool)
      ensures near <==> connectionId in paths && NearPath(paths[connectionId], q)
    {
      if connectionId !in paths {
        return false;
      }
      var points := paths[connectionId];
      var i := 0;
      while i < |points| - 1
        invariant 0 <= i
        invariant forall j | 0 <= j < i && j < |points| - 1 :: SegDistSq(points[j], points[j + 1], q) >= HitDistance * HitDistance
      {
        var d := SegDistSq(points[i], points[i + 1], q);
        if d < HitDistance * HitDistance {
          return true;
        }
        i := i + 1;
      }
      return false;
    }

    /** The hover search: the canvas offset is divided by the scale, the first
        connection in list order whose path is near is hovered with its delete
        button, and no hit clears the hover. Without a canvas nothing happens. */
    method HandleMouseMove(nodes: map<Id, MindMapNode>, conns: seq<NodeConnection>, mouse: Position,
                           scale: real, canvasReady: bool)
      requires scale > 0.0
      modifies this`hovered
      ensures canvasReady ==> hovered == HoverAt(nodes, paths, conns, mouse, scale)
      ensures !canvasReady ==> hovered == old(hovered)
    {
      if !canvasReady {
        return;
      }
      var q := Position(mouse.x / scale, mouse.y / scale);
      var found := false;
      var k := 0;
      while k < |conns|
        invariant 0 <= k <= |conns|
        invariant !found ==> forall j | 0 <= j < k :: !Hit(paths, conns[j], q)
        invariant found ==> hovered == HoverAt(nodes, paths, conns, mouse, scale)
        invariant found ==> k == |conns|
      {
        var near := IsPointNearPath(q, conns[k].id);
        if near {
          assert FirstHit(paths, conns, q) == Some(k);
          hovered := Some(DeleteButton(nodes, conns[k], scale));
          found := true;
          break;
        }
        k := k + 1;
      }
      if !found {
        assert FirstHit(paths, conns, q).None?;
        hovered := None;
      }
    }

    /** A click on the canvas while a connection is hovered asks to delete it
        and clears the hover. */
    method HandleCanvasClick() returns (delete: Option<Id>)
      modifies this`hovered
      ensures delete == if old(hovered).Some? then Some(old(hovered).value.id) else None
      ensures old(hovered).Some? ==> hovered.None?
      ensures old(hovered).None? ==> hovered.None?
    {
      if hovered.Some? {
        delete := Some(hovered.value.id);
        hovered := None;
      } else {
        delete := None;
      }
    }

    /** The render effect: the path map is cleared; with a canvas, every
        connection whose two nodes exist is drawn in list order, and stored
        when its id is not empty;
        then the preview is drawn when an anchor connection is pending, the
        mouse position is known and the pending node exists. */
    method Redraw(nodes: map<Id, MindMapNode>, conns: seq<NodeConnection>,
                  pending: Option<ConnectionPoint>, active: Option<ConnectionPoint>, mouse: Option<Position>,
                  canvasReady: bool, curve: (nat, Position, Position) -> seq<Position>)
      returns (preview: Option<Preview>)
      requires forall k, a, b :: |curve(k, a, b)| == Segments
      modifies this`paths
      ensures paths == if canvasReady then StoredPaths(nodes, conns, curve, 0, map[]) else map[]
      ensures preview.Some? <==> canvasReady && pending.Some? && mouse.Some? && pending.value.nodeId in nodes
      ensures preview.Some? ==>
        && preview.value.start == AnchorPosition(nodes, pending.value.nodeId, pending.value.position)
        && preview.value.end == if active.Some? then AnchorPosition(nodes, active.value.nodeId, active.value.position)
                                else mouse.value
    {
      paths := map[];
      preview := None;
      if !canvasReady {
        return;
      }
      var k := 0;
      while k < |conns|
        invariant 0 <= k <= |conns|
        invariant StoredPaths(nodes, conns, curve, k, paths) == StoredPaths(nodes, conns, curve, 0, map[])
      {
        var c := conns[k];
        if c.sourceId in nodes && c.targetId in nodes {
          var s := AnchorPosition(nodes, c.sourceId, c.sourcePoint);
          var t := AnchorPosition(nodes, c.targetId, c.targetPoint);
          var _ := DrawCurvedPath(s, t, curve(k, s, t), Some(c.id));
        }
        k := k + 1;
      }
      if pending.Some? && mouse.Some? && pending.value.nodeId in nodes {
        var s := AnchorPosition(nodes, pending.value.nodeId, pending.value.position);
        var t := if active.Some? then AnchorPosition(nodes, active.value.nodeId, active.value.position) else mouse.value;
        preview := Some(Preview(s, t));
      }
    }
  }

  /** After a redraw, every stored path is hit at the source anchor of a
      connection that carries its id, which is not empty, and whose two nodes
      exist. */
  lemma RedrawHitsSources(nodes: map<Id, MindMapNode>, conns: seq<NodeConnection>,
                          curve: (nat, Position, Position) -> seq<Position>, id: Id)
    requires forall k, a, b :: |curve(k, a, b)| == Segments
    requires id in StoredPaths(nodes, conns, curve, 0, map[])
    ensures var path := StoredPaths(nodes, conns, curve, 0, map[])[id];
      id != "" && exists i | 0 <= i < |conns| :: (conns[i].id == id && Drawable(nodes, conns[i])
        && NearPath(path, AnchorPosition(nodes, conns[i].sourceId, conns[i].sourcePoint)))
  {
    StoredPathsKeys(nodes, conns, curve, 0, map[]);
    var r := StoredPaths(nodes, conns, curve, 0, map[]);
    assert StoredBy(nodes, conns, |conns|, id, r[id]);
    var i :| 0 <= i < |conns| && conns[i].id == id && Stored(nodes, conns[i]) && PathOf(nodes, conns[i], r[id]);
    NearPathAtPoint(r[id], 0);
  }
}
