/** The automatic tree layout: the breadth-first leveling from the root, the
    radial placement of each level on a ring, and the overlap relaxation
    that pushes crowded nodes apart. Cosine, sine, arctangent and the square
    root are supplied as a `Trig` value. */
module Layout {
  import opened Types

  type Nodes = map<Id, MindMapNode>

  /** Ring spacing per level. */
  const HorizontalSpacing: real := 300.0
  /** Below this distance two nodes overlap. */
  const MinSiblingDistance: real := 80.0
  /** Relaxation passes per node. */
  const MaxIterations: nat := 10

  /** The transcendental functions the layout calls. */
  datatype Trig = Trig(pi: real, cos: real -> real, sin: real -> real, atan2: (real, real) -> real, sqrt: real -> real)

  // ---------------------------------------------------------------------
  // Levels

  /** No id appears twice anywhere in the levels. */
  predicate Distinct2D(levels: seq<seq<Id>>) {
    forall m, j, n, i | 0 <= m < |levels| && 0 <= j < |levels[m]| && 0 <= n < |levels| && 0 <= i < |levels[n]|
      && levels[m][j] == levels[n][i] :: m == n && j == i
  }

  /** `c` is listed on one of the levels below `bound`. */
  predicate Listed(levels: seq<seq<Id>>, c: Id, bound: int) {
    exists m | 0 <= m < bound && m < |levels| :: c in levels[m]
  }

  /** `c` is a child of some present node of `level`. */
  predicate HasParentIn(nodes: Nodes, level: seq<Id>, c: Id) {
    exists x :: x in level && x in nodes && c in nodes[x].children
  }

  /** Every id of `level` is present and a child of a node of `prev`. */
  predicate ChildLevel(nodes: Nodes, prev: seq<Id>, level: seq<Id>) {
    forall c | c in level :: c in nodes && HasParentIn(nodes, prev, c)
  }

  /** Every present child of a present node of `level` is listed below `bound`. */
  predicate ClosedInto(nodes: Nodes, level: seq<Id>, levels: seq<seq<Id>>, bound: int) {
    forall x, c | x in level && x in nodes && c in nodes[x].children && c in nodes :: Listed(levels, c, bound)
  }

  /** The levels of a breadth-first walk from the root: the root alone first,
      then each level the present, not yet listed children of the level
      before, ending with one empty level; every level but the last is
      non-empty, every child of a level is listed no later than the next. */
  ghost predicate LevelsOf(nodes: Nodes, rootId: Id, levels: seq<seq<Id>>) {
    && |levels| >= 1 && levels[0] == [rootId] && levels[|levels| - 1] == []
    && Distinct2D(levels)
    && (forall n | 0 <= n < |levels| - 1 :: levels[n] != [])
    && (forall n | 1 <= n < |levels| :: ChildLevel(nodes, levels[n - 1], levels[n]))
    && (forall n | 0 <= n < |levels| - 1 :: ClosedInto(nodes, levels[n], levels, n + 2))
  }

  /** `buildLevels`: levels are grown until one comes out empty; each child
      is taken the first time it is met. */
  method BuildLevels(nodes: Nodes, rootId: Id) returns (levels: seq<seq<Id>>)
    ensures LevelsOf(nodes, rootId, levels)
  {
    levels := [[rootId]];
    var processed: set<Id> := {rootId};
    assert rootId in levels[0];
    while levels[|levels| - 1] != []
      // compared with `true` so that the invariant is checked as one fact, not conjunct by conjunct
      invariant Growing(nodes, rootId, levels, processed) == true
      decreases |nodes.Keys - processed|, if levels[|levels| - 1] == [] then 0 else 1
    {
      var current := levels[|levels| - 1];
      ghost var processed0 := processed;
      var next;
      next, processed := NextLevel(nodes, current, processed);
      ghost var old_levels := levels;
      levels := levels + [next];
      GrowStep(nodes, rootId, old_levels, processed0, next, processed);
      GrowShrinks(nodes, current, processed0, next, processed);
    }
  }

  /** A non-empty level leaves fewer nodes to process; an empty one leaves
      the same. */
  lemma GrowShrinks(nodes: Nodes, current: seq<Id>, processed0: set<Id>, next: seq<Id>, processed: set<Id>)
    requires NextOf(nodes, current, processed0, next, processed)
    ensures next != [] ==> |nodes.Keys - processed| < |nodes.Keys - processed0|
    ensures next == [] ==> processed == processed0
  {
    if next != [] {
      assert next[0] in nodes.Keys - processed0;
      SubsetSmaller(nodes.Keys - processed, nodes.Keys - processed0);
    }
  }

  /** What the level loop keeps: `processed` is what the levels list. */
  ghost predicate Growing(nodes: Nodes, rootId: Id, levels: seq<seq<Id>>, processed: set<Id>) {
    && |levels| >= 1 && levels[0] == [rootId]
    && (forall c :: c in processed <==> Listed(levels, c, |levels|))
    && processed <= nodes.Keys + {rootId}
    && Distinct2D(levels)
    && (forall n | 0 <= n < |levels| - 1 :: levels[n] != [])
    && (forall n | 1 <= n < |levels| :: ChildLevel(nodes, levels[n - 1], levels[n]))
    && (forall n | 0 <= n < |levels| - 1 :: ClosedInto(nodes, levels[n], levels, n + 2))
  }

  lemma SubsetSmaller(a: set<Id>, b: set<Id>)
    requires a < b
    ensures |a| < |b|
  {
    var x :| x in b && x !in a;
    CardMono(a, b - {x});
  }

  lemma {:induction false} CardMono(a: set<Id>, b: set<Id>)
    requires a <= b
    ensures |a| <= |b|
    decreases |a|
  {
    if a != {} {
      var y :| y in a;
      CardMono(a - {y}, b - {y});
    }
  }

  /** One pass of the level loop: the present children of the nodes of
      `current` not processed yet, in order of discovery, each once. */
  method NextLevel(nodes: Nodes, current: seq<Id>, processed0: set<Id>) returns (next: seq<Id>, processed: set<Id>)
    ensures NextOf(nodes, current, processed0, next, processed)
  {
    next, processed := [], processed0;
    var i := 0;
    while i < |current|
      invariant 0 <= i <= |current|
      invariant forall c :: c in processed <==> c in processed0 || c in next
      invariant forall c | c in next :: c !in processed0
      invariant ChildLevel(nodes, current, next)
      invariant forall a, b | 0 <= a < b < |next| :: next[a] != next[b]
      invariant forall j, c | 0 <= j < i && current[j] in nodes && c in nodes[current[j]].children && c in nodes ::
        c in processed
    {
      var id := current[i];
      if id in nodes {
        var kids := nodes[id].children;
        var j := 0;
        while j < |kids|
          invariant 0 <= j <= |kids|
          invariant forall c :: c in processed <==> c in processed0 || c in next
          invariant forall c | c in next :: c !in processed0
          invariant ChildLevel(nodes, current, next)
          invariant forall a, b | 0 <= a < b < |next| :: next[a] != next[b]
          invariant forall j', c | 0 <= j' < i && current[j'] in nodes && c in nodes[current[j']].children && c in nodes ::
            c in processed
          invariant forall jj | 0 <= jj < j && kids[jj] in nodes :: kids[jj] in processed
        {
          var c := kids[j];
          if c !in processed && c in nodes {
            assert HasParentIn(nodes, current, c);
            next := next + [c];
            processed := processed + {c};
          }
          j := j + 1;
        }
      }
      i := i + 1;
    }
  }

  /** `next` holds, in some order and each once, the present children of
      `current` not in `processed0`; `processed` adds them. */
  ghost predicate NextOf(nodes: Nodes, current: seq<Id>, processed0: set<Id>, next: seq<Id>, processed: set<Id>) {
    && (forall c :: c in processed <==> c in processed0 || c in next)
    && (forall c | c in next :: c !in processed0)
    && ChildLevel(nodes, current, next)
    && (forall a, b | 0 <= a < b < |next| :: next[a] != next[b])
    && (forall x, c | x in current && x in nodes && c in nodes[x].children && c in nodes :: c in processed)
  }

  /** Appending the next level keeps what the level loop keeps. */
  lemma GrowStep(nodes: Nodes, rootId: Id, levels: seq<seq<Id>>, listed: set<Id>, next: seq<Id>, processed: set<Id>)
    requires Growing(nodes, rootId, levels, listed) && levels[|levels| - 1] != []
    requires NextOf(nodes, levels[|levels| - 1], listed, next, processed)
    ensures Growing(nodes, rootId, levels + [next], processed)
  {
    var ls := levels + [next];
    GrowDistinct(levels, listed, next);
    GrowListed(levels, listed, next, processed);
    GrowClosed(nodes, levels, listed, next, processed);
    GrowChild(nodes, levels, next);
    forall n | 0 <= n < |ls| - 1
      ensures ls[n] != []
    {
      if n < |levels| - 1 {
        assert levels[n] != [];
      }
    }
  }

  lemma GrowDistinct(levels: seq<seq<Id>>, listed: set<Id>, next: seq<Id>)
    requires Distinct2D(levels)
    requires forall c :: c in listed <==> Listed(levels, c, |levels|)
    requires forall c | c in next :: c !in listed
    requires forall a, b | 0 <= a < b < |next| :: next[a] != next[b]
    ensures Distinct2D(levels + [next])
  {
    var ls := levels + [next];
    forall m, j, n, i | 0 <= m < |ls| && 0 <= j < |ls[m]| && 0 <= n < |ls| && 0 <= i < |ls[n]| && ls[m][j] == ls[n][i]
      ensures m == n && j == i
    {
      var v := ls[m][j];
      assert m < |levels| ==> ls[m] == levels[m] && Listed(levels, v, |levels|);
      assert n < |levels| ==> ls[n] == levels[n] && Listed(levels, v, |levels|);
    }
  }

  lemma GrowListed(levels: seq<seq<Id>>, listed: set<Id>, next: seq<Id>, processed: set<Id>)
    requires forall c :: c in listed <==> Listed(levels, c, |levels|)
    requires forall c :: c in processed <==> c in listed || c in next
    ensures forall c :: c in processed <==> Listed(levels + [next], c, |levels| + 1)
  {
    var ls := levels + [next];
    forall c
      ensures c in processed <==> Listed(ls, c, |ls|)
    {
      if Listed(ls, c, |ls|) {
        var m :| 0 <= m < |ls| && m < |ls| && c in ls[m];
        if m < |levels| {
          assert Listed(levels, c, |levels|);
        }
      }
      if c in listed {
        var m :| 0 <= m < |levels| && m < |levels| && c in levels[m];
        assert ls[m] == levels[m];
      }
      if c in next {
        assert ls[|levels|] == next;
      }
    }
  }

  lemma GrowClosed(nodes: Nodes, levels: seq<seq<Id>>, listed: set<Id>, next: seq<Id>, processed: set<Id>)
    requires |levels| >= 1
    requires forall n | 0 <= n < |levels| - 1 :: ClosedInto(nodes, levels[n], levels, n + 2)
    requires forall c :: c in processed <==> Listed(levels + [next], c, |levels| + 1)
    requires forall x, c | x in levels[|levels| - 1] && x in nodes && c in nodes[x].children && c in nodes :: c in processed
    ensures forall n | 0 <= n < |levels| :: ClosedInto(nodes, (levels + [next])[n], levels + [next], n + 2)
  {
    var ls := levels + [next];
    forall n | 0 <= n < |levels|
      ensures ClosedInto(nodes, ls[n], ls, n + 2)
    {
      forall x, c | x in ls[n] && x in nodes && c in nodes[x].children && c in nodes
        ensures Listed(ls, c, n + 2)
      {
        if n < |levels| - 1 {
          assert ClosedInto(nodes, levels[n], levels, n + 2);
          var m :| 0 <= m < n + 2 && m < |levels| && c in levels[m];
          assert ls[m] == levels[m];
        } else {
          assert c in processed;
        }
      }
    }
  }

  lemma GrowChild(nodes: Nodes, levels: seq<seq<Id>>, next: seq<Id>)
    requires |levels| >= 1
    requires forall n | 1 <= n < |levels| :: ChildLevel(nodes, levels[n - 1], levels[n])
    requires ChildLevel(nodes, levels[|levels| - 1], next)
    ensures forall n | 1 <= n < |levels| + 1 :: ChildLevel(nodes, (levels + [next])[n - 1], (levels + [next])[n])
  {
    var ls := levels + [next];
    forall n | 1 <= n < |ls|
      ensures ChildLevel(nodes, ls[n - 1], ls[n])
    {
      if n < |levels| {
        assert ChildLevel(nodes, levels[n - 1], levels[n]);
      }
    }
  }

  // ---------------------------------------------------------------------
  // Radial placement

  /** `parentIds.map(pid => nodeAngles[pid]).filter(a => a !== undefined)`,
      where only the ids in `known` have been given an angle yet. */
  function ParentAngles(ps: seq<Id>, angles: map<Id, real>, known: set<Id>): (r: seq<real>)
    ensures |r| <= |ps|
    ensures (forall p | p in ps :: p !in known || p !in angles) <==> r == []
    ensures forall a | a in r :: exists p | p in ps && p in known && p in angles :: a == angles[p]
  {
    if ps == [] then []
    else if ps[0] in known && ps[0] in angles then [angles[ps[0]]] + ParentAngles(ps[1..], angles, known)
    else ParentAngles(ps[1..], angles, known)
  }

  /** Only the angles of known ids matter. */
  lemma {:induction false} ParentAnglesAgree(ps: seq<Id>, a: map<Id, real>, s: set<Id>, b: map<Id, real>, t: set<Id>)
    requires forall p :: (p in s && p in a) <==> (p in t && p in b)
    requires forall p | p in s && p in a :: a[p] == b[p]
    ensures ParentAngles(ps, a, s) == ParentAngles(ps, b, t)
  {
    if ps != [] {
      ParentAnglesAgree(ps[1..], a, s, b, t);
    }
  }

  function Sum(s: seq<real>): real {
    if s == [] then 0.0 else s[0] + Sum(s[1..])
  }

  /** The angle of the node at `index` on a ring of `count` nodes: evenly
      spaced when none of its parents has an angle yet, otherwise fanned out
      in steps of `pi / 6` around the mean of its parents' angles. */
  function RingAngle(ps: seq<Id>, angles: map<Id, real>, known: set<Id>, index: nat, count: nat, trig: Trig): real
    requires index < count
  {
    var pa := ParentAngles(ps, angles, known);
    if |pa| > 0 then Sum(pa) / (|pa| as real) + Mul((index as real) - (count as real) / 2.0, trig.pi / 6.0)
    else Mul(index as real, 2.0 * trig.pi / (count as real))
  }

  /** Nodes without placed parents are spread evenly around the ring, the
      first at angle zero. */
  lemma RingEvenlySpaced(angles: map<Id, real>, known: set<Id>, index: nat, count: nat, trig: Trig, ps: seq<Id>)
    requires index + 1 < count
    requires forall p | p in ps :: p !in known || p !in angles
    ensures RingAngle(ps, angles, known, 0, count, trig) == 0.0
    ensures RingAngle(ps, angles, known, index + 1, count, trig) - RingAngle(ps, angles, known, index, count, trig)
      == 2.0 * trig.pi / (count as real)
  {
    MulStep(index as real, 2.0 * trig.pi / (count as real));
  }

  /** Nodes with placed parents step by `pi / 6` from one index to the next,
      centred on the parents' mean angle. */
  lemma RingFansOut(angles: map<Id, real>, known: set<Id>, index: nat, count: nat, trig: Trig, ps: seq<Id>)
    requires index + 1 < count
    requires exists p | p in ps :: p in known && p in angles
    ensures RingAngle(ps, angles, known, index + 1, count, trig) - RingAngle(ps, angles, known, index, count, trig)
      == trig.pi / 6.0
  {
    MulStep((index as real) - (count as real) / 2.0, trig.pi / 6.0);
  }

  function Radius(level: nat): real {
    (level as real) * HorizontalSpacing
  }

  /** (n, i) is a ring position or the end of a level (or of all levels). */
  predicate ValidPos(levels: seq<seq<Id>>, n: int, i: int) {
    1 <= n <= |levels| && if n < |levels| then 0 <= i <= |levels[n]| else i == 0
  }

  /** The ids at the ring positions before (n, i) (level 0 excluded). */
  ghost function Before(levels: seq<seq<Id>>, n: int, i: int): set<Id>
    requires ValidPos(levels, n, i)
    decreases n, i
  {
    if i > 0 then Before(levels, n, i - 1) + {levels[n][i - 1]}
    else if n > 1 then Before(levels, n - 1, |levels[n - 1]|)
    else {}
  }

  /** An id at no earlier position is not before a position. */
  lemma {:induction false} BeforeOnly(levels: seq<seq<Id>>, n: int, i: int, x: Id)
    requires ValidPos(levels, n, i)
    requires forall m, j | Earlier(levels, m, j, n, i) :: levels[m][j] != x
    ensures x !in Before(levels, n, i)
    decreases n, i
  {
    if i > 0 {
      assert Earlier(levels, n, i - 1, n, i);
      forall m, j | Earlier(levels, m, j, n, i - 1)
        ensures levels[m][j] != x
      {
        assert Earlier(levels, m, j, n, i);
      }
      BeforeOnly(levels, n, i - 1, x);
    } else if n > 1 {
      forall m, j | Earlier(levels, m, j, n - 1, |levels[n - 1]|)
        ensures levels[m][j] != x
      {
        assert Earlier(levels, m, j, n, i);
      }
      BeforeOnly(levels, n - 1, |levels[n - 1]|, x);
    }
  }

  /** Every earlier position is before, and so is everything before it. */
  lemma {:induction false} BeforeHas(levels: seq<seq<Id>>, m: int, j: int, n: int, i: int)
    requires ValidPos(levels, n, i) && Earlier(levels, m, j, n, i)
    ensures levels[m][j] in Before(levels, n, i)
    ensures Before(levels, m, j) <= Before(levels, n, i)
    decreases n, i
  {
    if i > 0 {
      if m != n || j != i - 1 {
        BeforeHas(levels, m, j, n, i - 1);
      }
    } else if n > 1 {
      BeforeHas(levels, m, j, n - 1, |levels[n - 1]|);
    }
  }

  /** `k` is on some level after the root's. */
  predicate Ringed(levels: seq<seq<Id>>, k: Id) {
    exists n | 1 <= n < |levels| :: k in levels[n]
  }

  /** The node at ring position (n, i) sits on the circle of radius
      `Radius(n)` around `centre`, at the angle recorded for it. */
  ghost predicate OnRing(nodes: Nodes, r: Nodes, levels: seq<seq<Id>>, angles: map<Id, real>, centre: Position, trig: Trig, n: int, i: int)
    requires 1 <= n < |levels| && 0 <= i < |levels[n]|
    requires levels[n][i] in nodes && levels[n][i] in r
  {
    var k := levels[n][i];
    && k in angles
    && angles[k] == RingAngle(nodes[k].parentIds, angles, Before(levels, n, i), i, |levels[n]|, trig)
    && r[k] == nodes[k].(x := centre.x + Mul(trig.cos(angles[k]), Radius(n)),
                         y := centre.y + Mul(trig.sin(angles[k]), Radius(n)))
  }

  /** Position (m, j) comes before position (n, i) on the rings. */
  predicate Earlier(levels: seq<seq<Id>>, m: int, j: int, n: int, i: int) {
    1 <= m < |levels| && 0 <= j < |levels[m]| && (m < n || (m == n && j < i))
  }

  /** What the level loop has established before ring position (n, i). */
  ghost predicate Placed(nodes: Nodes, r: Nodes, angles: map<Id, real>, levels: seq<seq<Id>>, centre: Position, trig: Trig, n: int, i: int)
    requires ValidPos(levels, n, i)
  {
    PlacedFrame(nodes, r, angles, levels, n, i) && PlacedRings(nodes, r, angles, levels, centre, trig, n, i)
  }

  /** Only nodes before (n, i) that are not manually positioned have moved,
      and only their coordinates; exactly they have angles. */
  ghost predicate PlacedFrame(nodes: Nodes, r: Nodes, angles: map<Id, real>, levels: seq<seq<Id>>, n: int, i: int)
    requires ValidPos(levels, n, i)
  {
    && r.Keys == nodes.Keys
    && (forall k | k in nodes :: SameButPosition(nodes[k], r[k]))
    && (forall k | k in nodes && (nodes[k].manuallyPositioned || k !in Before(levels, n, i)) :: r[k] == nodes[k])
    && (forall k :: k in angles <==> k in Before(levels, n, i) && k in nodes && !nodes[k].manuallyPositioned)
  }

  /** Every node before (n, i) that is not manually positioned is on its ring. */
  ghost predicate PlacedRings(nodes: Nodes, r: Nodes, angles: map<Id, real>, levels: seq<seq<Id>>, centre: Position, trig: Trig, n: int, i: int)
    requires ValidPos(levels, n, i) && r.Keys == nodes.Keys
  {
    forall m, j | Earlier(levels, m, j, n, i) && levels[m][j] in nodes && !nodes[levels[m][j]].manuallyPositioned ::
      OnRing(nodes, r, levels, angles, centre, trig, m, j)
  }

  lemma BeforeNext(levels: seq<seq<Id>>, n: int, i: int)
    requires 1 <= n < |levels| && 0 <= i < |levels[n]|
    ensures Before(levels, n, i + 1) == Before(levels, n, i) + {levels[n][i]}
  {
  }

  lemma BeforeNextLevel(levels: seq<seq<Id>>, n: int)
    requires 1 <= n < |levels|
    ensures Before(levels, n + 1, 0) == Before(levels, n, |levels[n]|)
  {
  }

  /** A distinct id is never among the positions before its own. */
  lemma NotBefore(levels: seq<seq<Id>>, n: int, i: int)
    requires Distinct2D(levels) && 1 <= n < |levels| && 0 <= i < |levels[n]|
    ensures levels[n][i] !in Before(levels, n, i)
  {
    BeforeOnly(levels, n, i, levels[n][i]);
  }

  /** Giving another node an angle and a position keeps a placed node on its ring. */
  lemma OnRingFrame(nodes: Nodes, r: Nodes, angles: map<Id, real>, r': Nodes, k: Id, v: real,
                    levels: seq<seq<Id>>, centre: Position, trig: Trig, m: int, j: int)
    requires 1 <= m < |levels| && 0 <= j < |levels[m]| && levels[m][j] in nodes && levels[m][j] in r && levels[m][j] in r'
    requires OnRing(nodes, r, levels, angles, centre, trig, m, j)
    requires k !in Before(levels, m, j) && k != levels[m][j]
    requires r'[levels[m][j]] == r[levels[m][j]]
    ensures OnRing(nodes, r', levels, angles[k := v], centre, trig, m, j)
  {
    var q := levels[m][j];
    ParentAnglesAgree(nodes[q].parentIds, angles, Before(levels, m, j), angles[k := v], Before(levels, m, j));
  }

  /** The angle the loop computes from the angles given so far is the one
      stated over the earlier positions. */
  lemma OnRingNew(nodes: Nodes, r: Nodes, angles: map<Id, real>, levels: seq<seq<Id>>, centre: Position, trig: Trig, n: int, i: int)
    requires 1 <= n < |levels| && 0 <= i < |levels[n]|
    requires var k := levels[n][i];
      k in nodes && k in r && k !in Before(levels, n, i) && SameButPosition(nodes[k], r[k])
    requires forall q :: q in angles ==> q in Before(levels, n, i)
    ensures var k := levels[n][i];
      var angle := RingAngle(r[k].parentIds, angles, angles.Keys, i, |levels[n]|, trig);
      OnRing(nodes, r[k := r[k].(x := centre.x + Mul(trig.cos(angle), Radius(n)), y := centre.y + Mul(trig.sin(angle), Radius(n)))],
             levels, angles[k := angle], centre, trig, n, i)
  {
    var k := levels[n][i];
    var angle := RingAngle(r[k].parentIds, angles, angles.Keys, i, |levels[n]|, trig);
    assert r[k].parentIds == nodes[k].parentIds;
    ParentAnglesAgree(nodes[k].parentIds, angles, angles.Keys, angles[k := angle], Before(levels, n, i));
  }

  /** One step of the level loop keeps what it has established. */
  lemma PlaceStep(nodes: Nodes, r: Nodes, angles: map<Id, real>, r': Nodes, angles': map<Id, real>,
                  levels: seq<seq<Id>>, centre: Position, trig: Trig, n: int, i: int)
    requires Distinct2D(levels) && 1 <= n < |levels| && 0 <= i < |levels[n]|
    requires Placed(nodes, r, angles, levels, centre, trig, n, i)
    requires var k := levels[n][i];
      if k in r && !r[k].manuallyPositioned then
        var angle := RingAngle(r[k].parentIds, angles, angles.Keys, i, |levels[n]|, trig);
        && angles' == angles[k := angle]
        && r' == r[k := r[k].(x := centre.x + Mul(trig.cos(angle), Radius(n)), y := centre.y + Mul(trig.sin(angle), Radius(n)))]
      else r' == r && angles' == angles
    ensures Placed(nodes, r', angles', levels, centre, trig, n, i + 1)
  {
    var k := levels[n][i];
    BeforeNext(levels, n, i);
    NotBefore(levels, n, i);
    if k in r && !r[k].manuallyPositioned {
      var angle := RingAngle(r[k].parentIds, angles, angles.Keys, i, |levels[n]|, trig);
      OnRingNew(nodes, r, angles, levels, centre, trig, n, i);
      PlaceStepFrame(nodes, r, angles, r', angles', levels, n, i, angle, centre, trig);
      forall m, j | Earlier(levels, m, j, n, i + 1) && levels[m][j] in nodes && !nodes[levels[m][j]].manuallyPositioned
        ensures OnRing(nodes, r', levels, angles', centre, trig, m, j)
      {
        if m != n || j != i {
          assert Earlier(levels, m, j, n, i);
          BeforeHas(levels, m, j, n, i);
          OnRingFrame(nodes, r, angles, r', k, angle, levels, centre, trig, m, j);
        }
      }
    } else {
      forall m, j | Earlier(levels, m, j, n, i + 1) && levels[m][j] in nodes && !nodes[levels[m][j]].manuallyPositioned
        ensures OnRing(nodes, r', levels, angles', centre, trig, m, j)
      {
        assert Earlier(levels, m, j, n, i);
      }
    }
  }

  /** The frame part of a placing step: only the placed node moves and only
      it gains an angle. */
  lemma PlaceStepFrame(nodes: Nodes, r: Nodes, angles: map<Id, real>, r': Nodes, angles': map<Id, real>,
                       levels: seq<seq<Id>>, n: int, i: int, angle: real, centre: Position, trig: Trig)
    requires 1 <= n < |levels| && 0 <= i < |levels[n]|
    requires r.Keys == nodes.Keys
    requires forall k | k in nodes :: SameButPosition(nodes[k], r[k])
    requires forall k | k in nodes && (nodes[k].manuallyPositioned || k !in Before(levels, n, i)) :: r[k] == nodes[k]
    requires forall k :: k in angles <==> k in Before(levels, n, i) && k in nodes && !nodes[k].manuallyPositioned
    requires Before(levels, n, i + 1) == Before(levels, n, i) + {levels[n][i]}
    requires var k := levels[n][i];
      && k in r && !r[k].manuallyPositioned
      && angles' == angles[k := angle]
      && r' == r[k := r[k].(x := centre.x + Mul(trig.cos(angle), Radius(n)), y := centre.y + Mul(trig.sin(angle), Radius(n)))]
    ensures r'.Keys == nodes.Keys
    ensures forall k | k in nodes :: SameButPosition(nodes[k], r'[k])
    ensures forall k | k in nodes && (nodes[k].manuallyPositioned || k !in Before(levels, n, i + 1)) :: r'[k] == nodes[k]
    ensures forall k :: k in angles' <==> k in Before(levels, n, i + 1) && k in nodes && !nodes[k].manuallyPositioned
  {
  }

  /** The level loop of the layout for the levels after the root's: every
      present node that is not manually positioned is put on its ring around
      `centre`, with the angles recorded in `angles`; nothing else. */
  method Place(nodes: Nodes, levels: seq<seq<Id>>, centre: Position, trig: Trig)
    returns (r: Nodes, angles: map<Id, real>)
    requires Distinct2D(levels) && |levels| >= 1
    ensures r.Keys == nodes.Keys
    ensures forall k | k in nodes :: SameButPosition(nodes[k], r[k])
    ensures forall k | k in nodes && (nodes[k].manuallyPositioned || !Ringed(levels, k)) :: r[k] == nodes[k]
    ensures forall n, i | 1 <= n < |levels| && 0 <= i < |levels[n]| && levels[n][i] in nodes
      && !nodes[levels[n][i]].manuallyPositioned :: OnRing(nodes, r, levels, angles, centre, trig, n, i)
  {
    r, angles := nodes, map[];
    PlacedStart(nodes, levels, centre, trig);
    var n := 1;
    while n < |levels|
      invariant 1 <= n <= |levels|
      invariant Placed(nodes, r, angles, levels, centre, trig, n, 0)
    {
      r, angles := PlaceLevel(nodes, r, angles, levels, centre, trig, n);
      PlacedNextLevel(nodes, r, angles, levels, centre, trig, n);
      n := n + 1;
    }
    PlacedEnd(nodes, r, angles, levels, centre, trig);
  }

  /** The outer `forEach` over one level: its nodes in order. */
  method PlaceLevel(ghost nodes: Nodes, r0: Nodes, angles0: map<Id, real>, levels: seq<seq<Id>>, centre: Position, trig: Trig, n: nat)
    returns (r: Nodes, angles: map<Id, real>)
    requires Distinct2D(levels) && 1 <= n < |levels|
    requires Placed(nodes, r0, angles0, levels, centre, trig, n, 0)
    ensures Placed(nodes, r, angles, levels, centre, trig, n, |levels[n]|)
  {
    r, angles := r0, angles0;
    var i := 0;
    while i < |levels[n]|
      invariant 0 <= i <= |levels[n]|
      // compared with `true` so that the invariant is checked as one fact, not conjunct by conjunct
      invariant Placed(nodes, r, angles, levels, centre, trig, n, i) == true
    {
      r, angles := PlaceOne(nodes, r, angles, levels, centre, trig, n, i);
      i := i + 1;
    }
  }

  /** The body of the inner `forEach`: the node at ring position (n, i), if
      present and not manually positioned, gets its angle and its place on
      the ring. */
  method PlaceOne(ghost nodes: Nodes, r: Nodes, angles: map<Id, real>, levels: seq<seq<Id>>, centre: Position, trig: Trig, n: nat, i: nat)
    returns (r': Nodes, angles': map<Id, real>)
    requires Distinct2D(levels) && 1 <= n < |levels| && 0 <= i < |levels[n]|
    requires Placed(nodes, r, angles, levels, centre, trig, n, i)
    ensures Placed(nodes, r', angles', levels, centre, trig, n, i + 1)
  {
    var k := levels[n][i];
    if k in r && !r[k].manuallyPositioned {
      var angle := RingAngle(r[k].parentIds, angles, angles.Keys, i, |levels[n]|, trig);
      angles' := angles[k := angle];
      r' := r[k := r[k].(x := centre.x + Mul(trig.cos(angle), Radius(n)), y := centre.y + Mul(trig.sin(angle), Radius(n)))];
    } else {
      r', angles' := r, angles;
    }
    PlaceStep(nodes, r, angles, r', angles', levels, centre, trig, n, i);
  }

  lemma PlacedStart(nodes: Nodes, levels: seq<seq<Id>>, centre: Position, trig: Trig)
    requires |levels| >= 1
    ensures Placed(nodes, nodes, map[], levels, centre, trig, 1, 0)
  {
    assert Before(levels, 1, 0) == {};
  }

  /** After the last level every ring position has been visited. */
  lemma PlacedEnd(nodes: Nodes, r: Nodes, angles: map<Id, real>, levels: seq<seq<Id>>, centre: Position, trig: Trig)
    requires |levels| >= 1
    requires Placed(nodes, r, angles, levels, centre, trig, |levels|, 0)
    ensures r.Keys == nodes.Keys
    ensures forall k | k in nodes :: SameButPosition(nodes[k], r[k])
    ensures forall k | k in nodes && (nodes[k].manuallyPositioned || !Ringed(levels, k)) :: r[k] == nodes[k]
    ensures forall n, i | 1 <= n < |levels| && 0 <= i < |levels[n]| && levels[n][i] in nodes
      && !nodes[levels[n][i]].manuallyPositioned :: OnRing(nodes, r, levels, angles, centre, trig, n, i)
  {
    forall k | k in nodes && !Ringed(levels, k)
      ensures k !in Before(levels, |levels|, 0)
    {
      forall m, j | Earlier(levels, m, j, |levels|, 0)
        ensures levels[m][j] != k
      {
        assert levels[m][j] in levels[m];
      }
      BeforeOnly(levels, |levels|, 0, k);
    }
    forall n, i | 1 <= n < |levels| && 0 <= i < |levels[n]| && levels[n][i] in nodes
      && !nodes[levels[n][i]].manuallyPositioned
      ensures OnRing(nodes, r, levels, angles, centre, trig, n, i)
    {
      assert Earlier(levels, n, i, |levels|, 0);
    }
  }

  /** Finishing a level is starting the next. */
  lemma PlacedNextLevel(nodes: Nodes, r: Nodes, angles: map<Id, real>, levels: seq<seq<Id>>, centre: Position, trig: Trig, n: int)
    requires 1 <= n < |levels|
    requires Placed(nodes, r, angles, levels, centre, trig, n, |levels[n]|)
    ensures Placed(nodes, r, angles, levels, centre, trig, n + 1, 0)
  {
    BeforeNextLevel(levels, n);
    forall m, j | Earlier(levels, m, j, n + 1, 0)
      ensures Earlier(levels, m, j, n, |levels[n]|)
    {
    }
  }

  // ---------------------------------------------------------------------
  // Overlap relaxation

  /** `otherNode` takes part in `node`'s overlap check: it has an id and it
      is not `node`. */
  predicate Competes(node: MindMapNode, other: MindMapNode) {
    other.id != "" && node.id != other.id
  }

  /** The two nodes are closer than the minimum distance, as measured with
      the supplied square root. */
  predicate Crowded(trig: Trig, a: MindMapNode, b: MindMapNode) {
    trig.sqrt(DistSq(a.Pos(), b.Pos())) < MinSiblingDistance
  }

  /** Some competitor of the node under `k` crowds it. */
  predicate HasOverlap(nodes: Nodes, order: seq<Id>, k: Id, trig: Trig)
    requires k in nodes
  {
    exists j | 0 <= j < |order| :: order[j] in nodes && Competes(nodes[k], nodes[order[j]]) && Crowded(trig, nodes[k], nodes[order[j]])
  }

  /** `checkOverlap`: one pass over the nodes in order. Each crowding
      competitor pushes the node and is pushed back, half the shortfall
      each, along the line between them; a manually positioned node is not
      pushed. The pass reports an overlap exactly when the map it started
      from had one, and changes nothing otherwise. */
  method CheckOverlap(nodes: Nodes, order: seq<Id>, k: Id, trig: Trig) returns (r: Nodes, found: bool)
    requires k in nodes
    ensures r.Keys == nodes.Keys
    ensures forall q | q in nodes :: SameButPosition(nodes[q], r[q])
    ensures forall q | q in nodes && nodes[q].manuallyPositioned :: r[q] == nodes[q]
    ensures forall q | q in nodes && q != k && nodes[q].id == "" :: r[q] == nodes[q]
    ensures found <==> HasOverlap(nodes, order, k, trig)
    ensures !found ==> r == nodes
  {
    r, found := nodes, false;
    var j := 0;
    while j < |order|
      invariant 0 <= j <= |order|
      invariant r.Keys == nodes.Keys
      invariant forall q | q in nodes :: SameButPosition(nodes[q], r[q])
      invariant forall q | q in nodes && nodes[q].manuallyPositioned :: r[q] == nodes[q]
      invariant forall q | q in nodes && q != k && nodes[q].id == "" :: r[q] == nodes[q]
      invariant !found ==> r == nodes
      invariant !found ==> forall jj | 0 <= jj < j ::
        !(order[jj] in nodes && Competes(nodes[k], nodes[order[jj]]) && Crowded(trig, nodes[k], nodes[order[jj]]))
      invariant found ==> HasOverlap(nodes, order, k, trig)
    {
      var o := order[j];
      if o in r && Competes(r[k], r[o]) {
        var dx := r[k].x - r[o].x;
        var dy := r[k].y - r[o].y;
        var distance := trig.sqrt(Mul(dx, dx) + Mul(dy, dy));
        assert distance == trig.sqrt(DistSq(r[k].Pos(), r[o].Pos()));
        if distance < MinSiblingDistance {
          found := true;
          var angle := trig.atan2(dy, dx);
          var move := (MinSiblingDistance - distance) / 2.0;
          if !r[k].manuallyPositioned {
            r := r[k := r[k].(x := r[k].x + Mul(trig.cos(angle), move), y := r[k].y + Mul(trig.sin(angle), move))];
          }
          if !r[o].manuallyPositioned {
            r := r[o := r[o].(x := r[o].x - Mul(trig.cos(angle), move), y := r[o].y - Mul(trig.sin(angle), move))];
          }
        }
      }
      j := j + 1;
    }
  }

  /** The relaxation of one node: up to `MaxIterations` passes, stopping at
      the first pass that finds no overlap; `iterations` counts the passes
      that found one. Fewer than the maximum means the node ends up
      uncrowded. */
  method RelaxNode(nodes: Nodes, order: seq<Id>, k: Id, trig: Trig) returns (r: Nodes, iterations: nat)
    requires k in nodes
    ensures r.Keys == nodes.Keys
    ensures forall q | q in nodes :: SameButPosition(nodes[q], r[q])
    ensures forall q | q in nodes && nodes[q].manuallyPositioned :: r[q] == nodes[q]
    ensures forall q | q in nodes && q != k && nodes[q].id == "" :: r[q] == nodes[q]
    ensures iterations <= MaxIterations
    ensures iterations < MaxIterations ==> !HasOverlap(r, order, k, trig)
  {
    r, iterations := nodes, 0;
    while iterations < MaxIterations
      invariant iterations <= MaxIterations
      invariant r.Keys == nodes.Keys
      invariant forall q | q in nodes :: SameButPosition(nodes[q], r[q])
      invariant forall q | q in nodes && nodes[q].manuallyPositioned :: r[q] == nodes[q]
      invariant forall q | q in nodes && q != k && nodes[q].id == "" :: r[q] == nodes[q]
    {
      var hasOverlap;
      r, hasOverlap := CheckOverlap(r, order, k, trig);
      if !hasOverlap {
        break;
      }
      iterations := iterations + 1;
    }
  }

  /** The relaxation loop over every node in enumeration order, skipping
      nodes without an id and manually positioned nodes. Neither kind is
      ever moved. */
  method Relax(nodes: Nodes, order: seq<Id>, trig: Trig) returns (r: Nodes)
    ensures r.Keys == nodes.Keys
    ensures forall q | q in nodes :: SameButPosition(nodes[q], r[q])
    ensures forall q | q in nodes && (nodes[q].manuallyPositioned || nodes[q].id == "") :: r[q] == nodes[q]
  {
    r := nodes;
    var i := 0;
    while i < |order|
      invariant 0 <= i <= |order|
      invariant r.Keys == nodes.Keys
      invariant forall q | q in nodes :: SameButPosition(nodes[q], r[q])
      invariant forall q | q in nodes && (nodes[q].manuallyPositioned || nodes[q].id == "") :: r[q] == nodes[q]
    {
      var k := order[i];
      if k in r && r[k].id != "" && !r[k].manuallyPositioned {
        var iterations;
        r, iterations := RelaxNode(r, order, k, trig);
      }
      i := i + 1;
    }
  }

  // ---------------------------------------------------------------------
  // The whole layout

  /** The root is being dragged in move mode. */
  predicate IsManualDrag(drag: DragState, rootId: Id) {
    drag.nodeId == Some(rootId) && drag.mode == Some(Move)
  }

  /** The root's ring centre: the viewport centre, unless the root is
      manually positioned or being dragged, when it keeps its place. */
  function RingCentre(root: MindMapNode, manualDrag: bool, centre: Position): Position {
    if !manualDrag && !root.manuallyPositioned then centre else root.Pos()
  }

  /** Levels depend only on the keys and the children. */
  lemma LevelsOfFrame(a: Nodes, b: Nodes, rootId: Id, levels: seq<seq<Id>>)
    requires a.Keys == b.Keys && forall k | k in a :: a[k].children == b[k].children
    requires LevelsOf(a, rootId, levels)
    ensures LevelsOf(b, rootId, levels)
  {
    forall n | 1 <= n < |levels|
      ensures ChildLevel(b, levels[n - 1], levels[n])
    {
      assert ChildLevel(a, levels[n - 1], levels[n]);
      forall c | c in levels[n]
        ensures HasParentIn(b, levels[n - 1], c)
      {
        assert HasParentIn(a, levels[n - 1], c);
        var x :| x in levels[n - 1] && x in a && c in a[x].children;
        assert x in b && c in b[x].children;
      }
    }
    forall n | 0 <= n < |levels| - 1
      ensures ClosedInto(b, levels[n], levels, n + 2)
    {
      assert ClosedInto(a, levels[n], levels, n + 2);
    }
  }

  /** The radial part of `calculateTreeLayout`, up to the overlap
      relaxation: the root is put at its ring centre, the levels are built
      and every present node of a ring that is not manually positioned is
      placed on it; the other nodes keep their place. */
  method RadialLayout(data: MindMapData, drag: DragState, centre: Position, trig: Trig)
    returns (nodes: Nodes, levels: seq<seq<Id>>, angles: map<Id, real>)
    requires data.rootId in data.nodes
    ensures LevelsOf(data.nodes, data.rootId, levels)
    ensures nodes.Keys == data.nodes.Keys
    ensures forall k | k in data.nodes :: SameButPosition(data.nodes[k], nodes[k])
    ensures var root := data.nodes[data.rootId];
      var c := RingCentre(root, IsManualDrag(drag, data.rootId), centre);
      nodes[data.rootId] == root.(x := c.x, y := c.y)
    ensures forall k | k in data.nodes && k != data.rootId && (data.nodes[k].manuallyPositioned || !Ringed(levels, k)) ::
      nodes[k] == data.nodes[k]
    ensures forall n, i | 1 <= n < |levels| && 0 <= i < |levels[n]| && levels[n][i] in data.nodes
      && !data.nodes[levels[n][i]].manuallyPositioned ::
      OnRing(data.nodes, nodes, levels, angles, RingCentre(data.nodes[data.rootId], IsManualDrag(drag, data.rootId), centre), trig, n, i)
  {
    nodes := data.nodes;
    var root := nodes[data.rootId];
    var isManualDrag := IsManualDrag(drag, data.rootId);
    if !isManualDrag && !root.manuallyPositioned {
      nodes := nodes[data.rootId := root.(x := centre.x, y := centre.y)];
    }
    levels := BuildLevels(nodes, data.rootId);
    LevelsOfFrame(nodes, data.nodes, data.rootId, levels);
    if isManualDrag || root.manuallyPositioned {
      nodes := nodes[data.rootId := nodes[data.rootId].(x := root.x, y := root.y)];
    }
    ghost var m := nodes;
    var c := nodes[data.rootId].Pos();
    assert c == RingCentre(root, isManualDrag, centre);
    nodes, angles := Place(nodes, levels, c, trig);
    RootNotRinged(levels, data.rootId);
    OnRingBase(m, data.nodes, nodes, levels, angles, c, trig, data.rootId);
  }

  /** The root is on level 0 only. */
  lemma RootNotRinged(levels: seq<seq<Id>>, rootId: Id)
    requires |levels| >= 1 && levels[0] == [rootId] && Distinct2D(levels)
    ensures !Ringed(levels, rootId)
  {
    forall n, i | 1 <= n < |levels| && 0 <= i < |levels[n]|
      ensures levels[n][i] != rootId
    {
      assert levels[0][0] == rootId;
    }
  }

  /** Ring facts stated over the map with the root moved hold over the
      original map: they only read ring nodes, and the root is none. */
  lemma OnRingBase(m: Nodes, nodes: Nodes, r: Nodes, levels: seq<seq<Id>>, angles: map<Id, real>, c: Position, trig: Trig, rootId: Id)
    requires m.Keys == nodes.Keys && forall k | k in nodes && k != rootId :: m[k] == nodes[k]
    requires !Ringed(levels, rootId) && r.Keys == nodes.Keys
    requires forall n, i | 1 <= n < |levels| && 0 <= i < |levels[n]| && levels[n][i] in m
      && !m[levels[n][i]].manuallyPositioned :: OnRing(m, r, levels, angles, c, trig, n, i)
    ensures forall n, i | 1 <= n < |levels| && 0 <= i < |levels[n]| && levels[n][i] in nodes
      && !nodes[levels[n][i]].manuallyPositioned :: OnRing(nodes, r, levels, angles, c, trig, n, i)
  {
    forall n, i | 1 <= n < |levels| && 0 <= i < |levels[n]| && levels[n][i] in nodes
      && !nodes[levels[n][i]].manuallyPositioned
      ensures OnRing(nodes, r, levels, angles, c, trig, n, i)
    {
      assert levels[n][i] in levels[n];
      assert levels[n][i] != rootId;
      assert OnRing(m, r, levels, angles, c, trig, n, i);
    }
  }

  /** `calculateTreeLayout`: without a root the map is returned as it is;
      otherwise the radial layout followed by the overlap relaxation. Only
      coordinates change, and manually positioned nodes not at all. */
  method CalculateTreeLayout(data: MindMapData, order: seq<Id>, drag: DragState, centre: Position, trig: Trig)
    returns (r: MindMapData)
    ensures data.rootId !in data.nodes ==> r == data
    ensures r.rootId == data.rootId && r.connections == data.connections
    ensures r.nodes.Keys == data.nodes.Keys
    ensures forall k | k in data.nodes :: SameButPosition(data.nodes[k], r.nodes[k])
    ensures forall k | k in data.nodes && data.nodes[k].manuallyPositioned :: r.nodes[k] == data.nodes[k]
  {
    if data.rootId !in data.nodes {
      return data;
    }
    var nodes, levels, angles := RadialLayout(data, drag, centre, trig);
    nodes := Relax(nodes, order, trig);
    r := data.(nodes := nodes);
  }
}
