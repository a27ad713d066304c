/** Path queries: direct line of sight, bounded local planning, and greedy path pruning. */
module Navigation {
  import opened Common
  import opened Grid
  import opened Segment
  import opened LineOfSight
  import opened Reachability

  const USIZE_MAX := 0xFFFF_FFFF_FFFF_FFFF

  datatype Navigator = Navigator(terrain: Terrain, reachability: ReachabilityGrid)

  /** As `MapNavigator::new` leaves it. */
  ghost predicate ValidNavigator(n: Navigator) {
    ValidTerrain(n.terrain) && Exact(n.terrain, n.reachability)
  }

  datatype LocalPlanScope = LocalPlanScope(radius: real)

  datatype GridBounds = GridBounds(minX: int, maxX: int, minY: int, maxY: int) {
    predicate Contains(c: GridCell) {
      minX <= c.x <= maxX && minY <= c.y <= maxY
    }
  }

  function Ceil(v: real): int {
    -((-v).Floor)
  }

  function SearchRadiusCells(scope: LocalPlanScope, t: Terrain): Option<nat>
    requires ValidTerrain(t)
  {
    if scope.radius <= 0.0 then None
    else
      var cells := Ceil(scope.radius / t.cellSize);
      if cells < 1 || cells > USIZE_MAX then None else Some(cells)
  }

  /** `hypot(dx, dy) <= radius`, without the square root. */
  predicate GoalIsInScope(scope: LocalPlanScope, start: Pos, goal: Pos) {
    var dx, dy := goal.x - start.x, goal.y - start.y;
    scope.radius >= 0.0 && dx * dx + dy * dy <= scope.radius * scope.radius
  }

  function SearchBounds(t: Terrain, center: GridCell, radius: nat): GridBounds {
    GridBounds(if center.x < radius then 0 else center.x - radius,
               if center.x + radius < t.width - 1 then center.x + radius else t.width - 1,
               if center.y < radius then 0 else center.y - radius,
               if center.y + radius < t.height - 1 then center.y + radius else t.height - 1)
  }

  // ----- the search

  /** What the planner's neighbour function offers from `c`. */
  predicate IsSuccessor(t: Terrain, bounds: GridBounds, c: GridCell, n: GridCell)
    requires ValidTerrain(t)
  {
    n in Neighbors4(t, c) && bounds.Contains(n) && Walkable(t, n)
  }

  /** A chain of successors, as the planner's neighbour function generates them. */
  ghost predicate IsChain(t: Terrain, bounds: GridBounds, p: seq<GridCell>, start: GridCell, goal: GridCell)
    requires ValidTerrain(t)
  {
    && |p| > 0 && p[0] == start && p[|p| - 1] == goal
    && forall i :: 0 <= i < |p| - 1 ==> IsSuccessor(t, bounds, p[i], p[i + 1])
  }

  /** The contract of the foreign A* search: some chain, or none only if there is none. */
  ghost predicate SearchAnswer(t: Terrain, bounds: GridBounds, start: GridCell, goal: GridCell,
                               found: Option<seq<GridCell>>)
    requires ValidTerrain(t)
  {
    match found
    case Some(p) => IsChain(t, bounds, p, start, goal)
    case None => forall p :: !IsChain(t, bounds, p, start, goal)
  }

  ghost predicate PlannerAnswer(n: Navigator, start: Pos, goal: Pos, scope: LocalPlanScope,
                                found: Option<seq<GridCell>>)
    requires ValidNavigator(n)
  {
    var s, g := CellForPoint(n.terrain, start), CellForPoint(n.terrain, goal);
    var radius := SearchRadiusCells(scope, n.terrain);
    s.Some? && g.Some? && radius.Some? ==>
      SearchAnswer(n.terrain, SearchBounds(n.terrain, s.value, radius.value), s.value, g.value, found)
  }

  /** `found` is what the search answers when it is asked. */
  function FindLocalCellPath(n: Navigator, start: GridCell, goal: GridCell, scope: LocalPlanScope,
                             found: Option<seq<GridCell>>): Option<seq<GridCell>>
    requires ValidNavigator(n)
  {
    var t := n.terrain;
    var radius := SearchRadiusCells(scope, t);
    if !Walkable(t, start) || !Walkable(t, goal) || !SameComponent(n.reachability, start, goal) then None
    else if radius.None? then None
    else if !SearchBounds(t, start, radius.value).Contains(goal) then None
    else found
  }

  datatype RouteResolution =
    | InvalidEndpoints
    | Direct(start: GridCell, goal: GridCell)
    | OutOfScope
    | Unreachable
    | Planned(cells: seq<GridCell>)

  function ResolveRoute(n: Navigator, start: Pos, goal: Pos, scope: LocalPlanScope,
                        found: Option<seq<GridCell>>): RouteResolution
    requires ValidNavigator(n)
  {
    var s, g := CellForPoint(n.terrain, start), CellForPoint(n.terrain, goal);
    if s.None? || g.None? then InvalidEndpoints
    else if SegmentClear(n.terrain, start, goal) then Direct(s.value, g.value)
    else if !GoalIsInScope(scope, start, goal) then OutOfScope
    else if !SameComponent(n.reachability, s.value, g.value) then Unreachable
    else match FindLocalCellPath(n, s.value, g.value, scope, found)
      case Some(cells) => Planned(cells)
      case None => Unreachable
  }

  // ----- pruning

  datatype NavPath = NavPath(cells: seq<GridCell>, waypoints: seq<Pos>)

  function AnchorsFrom(t: Terrain, cells: seq<GridCell>, start: Pos, goal: Pos, i: nat): seq<Pos>
    requires i <= |cells|
    decreases |cells| - i
  {
    if i == |cells| then []
    else
      (if i == 0 then [start]
       else if i + 1 == |cells| then [goal]
       else if ContainsCell(t, cells[i]) then [CellCenter(t, cells[i])] else [])
      + AnchorsFrom(t, cells, start, goal, i + 1)
  }

  function Anchors(t: Terrain, cells: seq<GridCell>, start: Pos, goal: Pos): seq<Pos> {
    var a := AnchorsFrom(t, cells, start, goal, 0);
    if |a| == 1 && start != goal then a + [goal] else a
  }

  /** The last anchor reached by extending from `f` while line of sight from `a` stays clear. */
  function Furthest(t: Terrain, anchors: seq<Pos>, a: nat, f: nat): (r: nat)
    requires ValidTerrain(t) && a < f < |anchors|
    ensures f <= r < |anchors| && (r == f || SegmentClear(t, anchors[a], anchors[r]))
    decreases |anchors| - f
  {
    if f + 1 < |anchors| && SegmentClear(t, anchors[a], anchors[f + 1]) then Furthest(t, anchors, a, f + 1) else f
  }

  function WaypointsFrom(t: Terrain, anchors: seq<Pos>, a: nat): seq<Pos>
    requires ValidTerrain(t) && a < |anchors|
    decreases |anchors| - a
  {
    if a + 1 < |anchors| then
      var f := Furthest(t, anchors, a, a + 1);
      [anchors[f]] + WaypointsFrom(t, anchors, f)
    else []
  }

  function PrunedPath(t: Terrain, cells: seq<GridCell>, start: Pos, goal: Pos): NavPath
    requires ValidTerrain(t)
  {
    if cells == [] then NavPath([], [])
    else
      var anchors := Anchors(t, cells, start, goal);
      assert anchors == [start] + anchors[1..];
      NavPath(cells, [anchors[0]] + WaypointsFrom(t, anchors, 0))
  }

  /** One hop of the greedy pruning: everything skipped or reached beyond the next anchor is in line
      of sight of `a`, and the anchor after that is not. */
  ghost predicate GreedyHop(t: Terrain, anchors: seq<Pos>, a: nat, f: nat)
    requires ValidTerrain(t)
  {
    && a < f < |anchors|
    && (forall j :: a + 1 < j <= f ==> SegmentClear(t, anchors[a], anchors[j]))
    && (f + 1 == |anchors| || !SegmentClear(t, anchors[a], anchors[f + 1]))
  }

  /** The anchors picked, by index: from anchor `a` to the last one by greedy hops. */
  ghost predicate GreedyPicks(t: Terrain, anchors: seq<Pos>, a: nat, picks: seq<nat>)
    requires ValidTerrain(t)
  {
    && picks != [] && picks[0] == a && picks[|picks| - 1] == |anchors| - 1
    && forall k :: 0 <= k < |picks| - 1 ==> GreedyHop(t, anchors, picks[k], picks[k + 1])
  }

  /** The waypoints are the anchors picked. */
  ghost predicate PicksAre(anchors: seq<Pos>, picks: seq<nat>, waypoints: seq<Pos>) {
    |waypoints| == |picks| && forall k :: 0 <= k < |picks| ==> picks[k] < |anchors| && waypoints[k] == anchors[picks[k]]
  }

  ghost predicate PrunedGreedily(t: Terrain, anchors: seq<Pos>, a: nat, waypoints: seq<Pos>)
    requires ValidTerrain(t)
  {
    exists picks: seq<nat> :: GreedyPicks(t, anchors, a, picks) && PicksAre(anchors, picks, waypoints)
  }

  lemma {:induction false} FurthestHops(t: Terrain, anchors: seq<Pos>, a: nat, f: nat)
    requires ValidTerrain(t) && a < f < |anchors|
    requires forall j :: a + 1 < j <= f ==> SegmentClear(t, anchors[a], anchors[j])
    ensures GreedyHop(t, anchors, a, Furthest(t, anchors, a, f))
    decreases |anchors| - f
  {
    if f + 1 < |anchors| && SegmentClear(t, anchors[a], anchors[f + 1]) {
      FurthestHops(t, anchors, a, f + 1);
    }
  }

  lemma PicksCons(t: Terrain, anchors: seq<Pos>, a: nat, f: nat, picks: seq<nat>, waypoints: seq<Pos>)
    requires ValidTerrain(t) && GreedyHop(t, anchors, a, f)
    requires GreedyPicks(t, anchors, f, picks) && PicksAre(anchors, picks, waypoints)
    ensures GreedyPicks(t, anchors, a, [a] + picks) && PicksAre(anchors, [a] + picks, [anchors[a]] + waypoints)
  {
    var all := [a] + picks;
    forall k | 0 <= k < |all| - 1 ensures GreedyHop(t, anchors, all[k], all[k + 1]) {
      if k > 0 {
        assert GreedyHop(t, anchors, picks[k - 1], picks[k - 1 + 1]);
      }
    }
  }

  /** The waypoints are exactly those of the greedy choice: no anchor is passed over out of sight, and
      none is kept while the next one is still in sight. */
  lemma {:induction false} WaypointsGreedy(t: Terrain, anchors: seq<Pos>, a: nat)
    requires ValidTerrain(t) && a < |anchors|
    ensures PrunedGreedily(t, anchors, a, [anchors[a]] + WaypointsFrom(t, anchors, a))
    decreases |anchors| - a
  {
    if a + 1 == |anchors| {
      assert GreedyPicks(t, anchors, a, [a]) && PicksAre(anchors, [a], [anchors[a]] + []);
    } else {
      var f := Furthest(t, anchors, a, a + 1);
      FurthestHops(t, anchors, a, a + 1);
      WaypointsGreedy(t, anchors, f);
      var rest := [anchors[f]] + WaypointsFrom(t, anchors, f);
      var picks: seq<nat> :| GreedyPicks(t, anchors, f, picks) && PicksAre(anchors, picks, rest);
      PicksCons(t, anchors, a, f, picks, rest);
    }
  }

  lemma HopUnique(t: Terrain, anchors: seq<Pos>, a: nat, f: nat, g: nat)
    requires ValidTerrain(t) && GreedyHop(t, anchors, a, f) && GreedyHop(t, anchors, a, g)
    ensures f == g
  {
    assert forall j :: a + 1 < j <= f || a + 1 < j <= g ==> SegmentClear(t, anchors[a], anchors[j]);
  }

  lemma HopInto(t: Terrain, anchors: seq<Pos>, a: nat, picks: seq<nat>)
    requires ValidTerrain(t) && GreedyPicks(t, anchors, a, picks) && |picks| > 1
    ensures GreedyHop(t, anchors, a, picks[1]) && GreedyPicks(t, anchors, picks[1], picks[1..])
  {
    assert GreedyHop(t, anchors, picks[0], picks[0 + 1]);
    forall k | 0 <= k < |picks[1..]| - 1 ensures GreedyHop(t, anchors, picks[1..][k], picks[1..][k + 1]) {
      assert GreedyHop(t, anchors, picks[k + 1], picks[k + 1 + 1]);
    }
  }

  /** Only one list of picks is greedy. */
  lemma {:induction false} PicksUnique(t: Terrain, anchors: seq<Pos>, a: nat, p: seq<nat>, q: seq<nat>)
    requires ValidTerrain(t) && GreedyPicks(t, anchors, a, p) && GreedyPicks(t, anchors, a, q)
    ensures p == q
    decreases |p|
  {
    if |p| > 1 {
      HopInto(t, anchors, a, p);
      if |q| > 1 {
        HopInto(t, anchors, a, q);
        HopUnique(t, anchors, a, p[1], q[1]);
        PicksUnique(t, anchors, p[1], p[1..], q[1..]);
        assert p == [a] + p[1..] && q == [a] + q[1..];
      }
    } else if |q| > 1 {
      HopInto(t, anchors, a, q);
    }
  }

  /** Waypoints are the pruned ones exactly if they are picked greedily. */
  lemma PrunedExact(t: Terrain, anchors: seq<Pos>, waypoints: seq<Pos>)
    requires ValidTerrain(t) && anchors != []
    ensures waypoints == [anchors[0]] + WaypointsFrom(t, anchors, 0) <==> PrunedGreedily(t, anchors, 0, waypoints)
  {
    var pruned := [anchors[0]] + WaypointsFrom(t, anchors, 0);
    WaypointsGreedy(t, anchors, 0);
    if PrunedGreedily(t, anchors, 0, waypoints) {
      var p: seq<nat> :| GreedyPicks(t, anchors, 0, p) && PicksAre(anchors, p, waypoints);
      var q: seq<nat> :| GreedyPicks(t, anchors, 0, q) && PicksAre(anchors, q, pruned);
      PicksUnique(t, anchors, 0, p, q);
    }
  }

  lemma AnchorsNext(t: Terrain, cells: seq<GridCell>, start: Pos, goal: Pos, i: nat, done: seq<Pos>)
    requires i < |cells|
    ensures var here := if i == 0 then [start] else if i + 1 == |cells| then [goal]
                        else if ContainsCell(t, cells[i]) then [CellCenter(t, cells[i])] else [];
            done + AnchorsFrom(t, cells, start, goal, i) == done + here + AnchorsFrom(t, cells, start, goal, i + 1)
  {
  }

  /** The loop that places one anchor per cell. */
  method AnchorPositions(t: Terrain, cells: seq<GridCell>, start: Pos, goal: Pos) returns (anchors: seq<Pos>)
    requires cells != []
    ensures anchors == Anchors(t, cells, start, goal) && anchors != []
  {
    anchors := [];
    for i := 0 to |cells|
      invariant anchors + AnchorsFrom(t, cells, start, goal, i) == AnchorsFrom(t, cells, start, goal, 0)
      invariant i > 0 ==> anchors != []
    {
      AnchorsNext(t, cells, start, goal, i, anchors);
      if i == 0 {
        anchors := anchors + [start];
      } else if i + 1 == |cells| {
        anchors := anchors + [goal];
      } else if ContainsCell(t, cells[i]) {
        anchors := anchors + [CellCenter(t, cells[i])];
      }
    }
    assert AnchorsFrom(t, cells, start, goal, |cells|) == [];
    if |anchors| == 1 && start != goal {
      anchors := anchors + [goal];
    }
  }

  lemma WaypointsNext(t: Terrain, anchors: seq<Pos>, a: nat, done: seq<Pos>)
    requires ValidTerrain(t) && a + 1 < |anchors|
    ensures var f := Furthest(t, anchors, a, a + 1);
            done + WaypointsFrom(t, anchors, a) == done + [anchors[f]] + WaypointsFrom(t, anchors, f)
  {
  }

  /** The greedy loops: skip anchors while line of sight stays clear. */
  method GreedyWaypoints(t: Terrain, anchors: seq<Pos>) returns (waypoints: seq<Pos>)
    requires ValidTerrain(t) && anchors != []
    ensures waypoints == [anchors[0]] + WaypointsFrom(t, anchors, 0) && PrunedGreedily(t, anchors, 0, waypoints)
  {
    waypoints := [anchors[0]];
    var anchor := 0;
    while anchor + 1 < |anchors|
      invariant anchor < |anchors|
      invariant waypoints + WaypointsFrom(t, anchors, anchor) == [anchors[0]] + WaypointsFrom(t, anchors, 0)
    {
      var furthest := anchor + 1;
      while furthest + 1 < |anchors| && SegmentClear(t, anchors[anchor], anchors[furthest + 1])
        invariant anchor < furthest < |anchors|
        invariant Furthest(t, anchors, anchor, furthest) == Furthest(t, anchors, anchor, anchor + 1)
      {
        furthest := furthest + 1;
      }
      WaypointsNext(t, anchors, anchor, waypoints);
      waypoints := waypoints + [anchors[furthest]];
      anchor := furthest;
    }
    assert WaypointsFrom(t, anchors, anchor) == [];
    PrunedExact(t, anchors, waypoints);
  }

  method PruneCellsToPath(t: Terrain, cells: seq<GridCell>, start: Pos, goal: Pos) returns (path: NavPath)
    requires ValidTerrain(t)
    ensures path == PrunedPath(t, cells, start, goal) && path.cells == cells
    ensures if cells == [] then path.waypoints == []
            else PrunedGreedily(t, Anchors(t, cells, start, goal), 0, path.waypoints)
  {
    if cells == [] {
      return NavPath([], []);
    }
    var anchors := AnchorPositions(t, cells, start, goal);
    var waypoints := GreedyWaypoints(t, anchors);
    return NavPath(cells, waypoints);
  }

  // ----- the queries

  function FindPath(n: Navigator, start: Pos, goal: Pos, scope: LocalPlanScope,
                    found: Option<seq<GridCell>>): Option<NavPath>
    requires ValidNavigator(n)
  {
    match ResolveRoute(n, start, goal, scope, found)
    case Direct(s, g) => Some(PrunedPath(n.terrain, [s, g], start, goal))
    case Planned(cells) => Some(PrunedPath(n.terrain, cells, start, goal))
    case _ => None
  }

  function NextWaypointFromPath(path: NavPath): Option<Pos> {
    var w := path.waypoints;
    if |w| > 1 then Some(w[1]) else if |w| == 1 then Some(w[0]) else None
  }

  function NextWaypoint(n: Navigator, start: Pos, goal: Pos, scope: LocalPlanScope,
                        found: Option<seq<GridCell>>): Option<Pos>
    requires ValidNavigator(n)
  {
    match ResolveRoute(n, start, goal, scope, found)
    case Direct(_, _) => Some(goal)
    case Planned(cells) => NextWaypointFromPath(PrunedPath(n.terrain, cells, start, goal))
    case _ => None
  }

  // ----- legs

  ghost predicate SafeLeg(t: Terrain, p: Pos, q: Pos)
    requires ValidTerrain(t)
  {
    AvoidsBlocked(t, p, q, 1.0)
  }

  ghost predicate SafeLegs(t: Terrain, ps: seq<Pos>)
    requires ValidTerrain(t)
  {
    forall i :: 0 <= i < |ps| - 1 ==> SafeLeg(t, ps[i], ps[i + 1])
  }

  predicate InSpan(p: real, v: real, q: real) {
    p <= v <= q || q <= v <= p
  }

  lemma ShareInSpan(d: real, u: real)
    requires 0.0 <= u <= 1.0
    ensures InSpan(0.0, d * u, d)
  {
    ScaleOrder(d, 0.0, u);
    ScaleOrder(d, u, 1.0);
  }

  lemma ShiftBetween(p: real, m: real, d: real)
    requires InSpan(0.0, m, d)
    ensures InSpan(p, p + m, p + d)
  {
  }

  lemma LerpInBox(p: Pos, q: Pos, u: real)
    requires 0.0 <= u <= 1.0
    ensures InSpan(p.x, Lerp(p, q, u).x, q.x) && InSpan(p.y, Lerp(p, q, u).y, q.y)
  {
    var dx, dy := q.x - p.x, q.y - p.y;
    assert InSpan(p.x, Lerp(p, q, u).x, q.x) by {
      ShareInSpan(dx, u);
      ShiftBetween(p.x, dx * u, dx);
    }
    assert InSpan(p.y, Lerp(p, q, u).y, q.y) by {
      ShareInSpan(dy, u);
      ShiftBetween(p.y, dy * u, dy);
    }
  }

  lemma StripRange(i: int, a: int, b: int, size: real, v: real)
    requires size > 0.0 && Edge(i, size) < v < Edge(i + 1, size)
    requires Edge(a, size) <= v <= Edge(b + 1, size)
    ensures a <= i <= b
  {
    EdgeOrder(i + 1, a, size);
    EdgeOrder(b + 1, i, size);
  }

  function MinInt(a: int, b: int): int {
    if a < b then a else b
  }

  function MaxInt(a: int, b: int): int {
    if a < b then b else a
  }

  /** On one axis, a hop between strips meets only the strips from one to the other. */
  lemma HopAxis(a: int, b: int, size: real, p: real, v: real, q: real, i: int)
    requires size > 0.0 && InSpan(p, v, q)
    requires Edge(a, size) <= p <= Edge(a + 1, size) && Edge(b, size) <= q <= Edge(b + 1, size)
    requires Edge(i, size) < v < Edge(i + 1, size)
    ensures MinInt(a, b) <= i <= MaxInt(a, b)
  {
    var lo, hi := MinInt(a, b), MaxInt(a, b);
    EdgeOrder(lo, a, size);
    EdgeOrder(lo, b, size);
    EdgeOrder(a + 1, hi + 1, size);
    EdgeOrder(b + 1, hi + 1, size);
    StripRange(i, lo, hi, size, v);
  }

  lemma HopCell(t: Terrain, a: GridCell, b: GridCell, p: Pos, v: Pos, q: Pos, c: GridCell)
    requires ValidTerrain(t) && Manhattan(a, b) <= 1
    requires InSpan(p.x, v.x, q.x) && InSpan(p.y, v.y, q.y)
    requires InClosed(t, a, p) && InClosed(t, b, q) && InOpen(t, c, v)
    ensures c == a || c == b
  {
    HopAxis(a.x, b.x, t.cellSize, p.x, v.x, q.x, c.x);
    HopAxis(a.y, b.y, t.cellSize, p.y, v.y, q.y, c.y);
  }

  /** A hop inside two side-by-side walkable cells is safe without a line-of-sight test. */
  lemma HopSafe(t: Terrain, a: GridCell, b: GridCell, p: Pos, q: Pos)
    requires ValidTerrain(t) && Walkable(t, a) && Walkable(t, b) && Manhattan(a, b) <= 1
    requires InClosed(t, a, p) && InClosed(t, b, q)
    ensures SafeLeg(t, p, q)
  {
    forall u: real, c | 0.0 <= u <= 1.0 && InOpen(t, c, Lerp(p, q, u)) ensures Walkable(t, c) {
      LerpInBox(p, q, u);
      HopCell(t, a, b, p, Lerp(p, q, u), q, c);
    }
  }

  lemma {:induction false} WaypointsSafe(t: Terrain, anchors: seq<Pos>, a: nat)
    requires ValidTerrain(t) && a < |anchors| && SafeLegs(t, anchors)
    ensures var w := [anchors[a]] + WaypointsFrom(t, anchors, a);
            SafeLegs(t, w) && w[|w| - 1] == anchors[|anchors| - 1]
    decreases |anchors| - a
  {
    if a + 1 < |anchors| {
      var f := Furthest(t, anchors, a, a + 1);
      WaypointsSafe(t, anchors, f);
      var rest := [anchors[f]] + WaypointsFrom(t, anchors, f);
      assert SafeLeg(t, anchors[a], anchors[f]) by {
        if f != a + 1 {
          SegmentClearSound(t, anchors[a], anchors[f]);
        }
      }
      var w := [anchors[a]] + WaypointsFrom(t, anchors, a);
      assert w == [anchors[a]] + rest;
      forall i | 0 <= i < |w| - 1 ensures SafeLeg(t, w[i], w[i + 1]) {
        if i > 0 {
          assert SafeLeg(t, rest[i - 1], rest[i - 1 + 1]);
        }
      }
    }
  }

  /** With every cell on the map, anchor `i` stands in cell `i`. */
  lemma {:induction false} AnchorsExact(t: Terrain, cells: seq<GridCell>, start: Pos, goal: Pos, i: nat)
    requires ValidTerrain(t) && i <= |cells|
    requires forall k :: 0 <= k < |cells| ==> ContainsCell(t, cells[k])
    ensures var a := AnchorsFrom(t, cells, start, goal, i);
            && |a| == |cells| - i
            && forall k :: 0 <= k < |a| ==>
                 a[k] == if k + i == 0 then start else if k + i + 1 == |cells| then goal
                         else CellCenter(t, cells[k + i])
    decreases |cells| - i
  {
    if i < |cells| {
      AnchorsExact(t, cells, start, goal, i + 1);
    }
  }

  lemma CenterInCell(t: Terrain, c: GridCell)
    requires ValidTerrain(t)
    ensures InClosed(t, c, CellCenter(t, c))
  {
  }

  /** Anchor `i` lies in cell `i`, so the hop to the next one stays in two neighbouring cells. */
  lemma HopBetween(t: Terrain, cells: seq<GridCell>, anchors: seq<Pos>, i: nat)
    requires ValidTerrain(t) && IsWalk(t, cells) && |anchors| == |cells| && i + 1 < |cells|
    requires InClosed(t, cells[0], anchors[0]) && InClosed(t, cells[|cells| - 1], anchors[|cells| - 1])
    requires forall k :: 0 < k < |cells| - 1 ==> anchors[k] == CellCenter(t, cells[k])
    ensures SafeLeg(t, anchors[i], anchors[i + 1])
  {
    CenterInCell(t, cells[i]);
    CenterInCell(t, cells[i + 1]);
    assert Adjacent(cells[i], cells[i + 1]);
    HopSafe(t, cells[i], cells[i + 1], anchors[i], anchors[i + 1]);
  }

  /** The waypoints of a chain of side-by-side walkable cells. */
  lemma ChainPathSafe(t: Terrain, cells: seq<GridCell>, start: Pos, goal: Pos)
    requires ValidTerrain(t) && IsWalk(t, cells)
    requires CellForPoint(t, start) == Some(cells[0]) && CellForPoint(t, goal) == Some(cells[|cells| - 1])
    ensures var w := PrunedPath(t, cells, start, goal).waypoints;
            |w| > 0 && w[0] == start && w[|w| - 1] == goal && SafeLegs(t, w)
  {
    AnchorsExact(t, cells, start, goal, 0);
    var anchors := Anchors(t, cells, start, goal);
    forall i | 0 <= i < |anchors| - 1 ensures SafeLeg(t, anchors[i], anchors[i + 1]) {
      CellForPointBounds(t, start);
      CellForPointBounds(t, goal);
      if |cells| == 1 {
        HopSafe(t, cells[0], cells[0], start, goal);
      } else {
        HopBetween(t, cells, anchors, i);
      }
    }
    WaypointsSafe(t, anchors, 0);
  }

  lemma ChainIsWalk(t: Terrain, bounds: GridBounds, p: seq<GridCell>, start: GridCell, goal: GridCell)
    requires ValidTerrain(t) && IsChain(t, bounds, p, start, goal) && Walkable(t, start)
    ensures IsWalk(t, p)
  {
    forall i | 0 <= i < |p| - 1 ensures Adjacent(p[i], p[i + 1]) {
      assert IsSuccessor(t, bounds, p[i], p[i + 1]);
      Neighbors4Exact(t, p[i], p[i + 1]);
    }
    forall i | 0 <= i < |p| ensures Walkable(t, p[i]) {
      if i > 0 {
        assert IsSuccessor(t, bounds, p[i - 1], p[i - 1 + 1]);
      }
    }
  }

  /** Two anchors only: the direct route and its single leg. */
  lemma DirectPath(t: Terrain, s: GridCell, g: GridCell, start: Pos, goal: Pos)
    requires ValidTerrain(t)
    ensures PrunedPath(t, [s, g], start, goal).waypoints == [start, goal]
  {
    var cells := [s, g];
    assert AnchorsFrom(t, cells, start, goal, 2) == [];
    assert AnchorsFrom(t, cells, start, goal, 1) == [goal];
    assert AnchorsFrom(t, cells, start, goal, 0) == [start, goal];
    var anchors := Anchors(t, cells, start, goal);
    assert WaypointsFrom(t, anchors, 1) == [];
    assert Furthest(t, anchors, 0, 1) == 1;
  }

  lemma PlannedIsWalk(n: Navigator, start: Pos, goal: Pos, scope: LocalPlanScope, found: Option<seq<GridCell>>,
                      cells: seq<GridCell>)
    requires ValidNavigator(n) && PlannerAnswer(n, start, goal, scope, found)
    requires ResolveRoute(n, start, goal, scope, found) == Planned(cells)
    ensures IsWalk(n.terrain, cells)
    ensures CellForPoint(n.terrain, start) == Some(cells[0])
        && CellForPoint(n.terrain, goal) == Some(cells[|cells| - 1])
  {
    var s, g := CellForPoint(n.terrain, start).value, CellForPoint(n.terrain, goal).value;
    ChainIsWalk(n.terrain, SearchBounds(n.terrain, s, SearchRadiusCells(scope, n.terrain).value), cells, s, g);
  }

  /** Every path returned runs from start to goal over legs that avoid every blocked interior, and
      is only ever returned inside one component. */
  lemma FindPathSafe(n: Navigator, start: Pos, goal: Pos, scope: LocalPlanScope, found: Option<seq<GridCell>>)
    requires ValidNavigator(n) && PlannerAnswer(n, start, goal, scope, found)
    requires FindPath(n, start, goal, scope, found).Some?
    ensures var w := FindPath(n, start, goal, scope, found).value.waypoints;
            |w| > 0 && w[0] == start && w[|w| - 1] == goal && SafeLegs(n.terrain, w)
    ensures CellForPoint(n.terrain, start).Some? && CellForPoint(n.terrain, goal).Some?
    ensures SameComponent(n.reachability, CellForPoint(n.terrain, start).value, CellForPoint(n.terrain, goal).value)
  {
    match ResolveRoute(n, start, goal, scope, found) {
      case Direct(s, g) =>
        SegmentClearConnects(n.terrain, start, goal);
        SegmentClearSound(n.terrain, start, goal);
        DirectPath(n.terrain, s, g, start, goal);
      case Planned(cells) =>
        PlannedIsWalk(n, start, goal, scope, found, cells);
        ChainPathSafe(n.terrain, cells, start, goal);
    }
  }

  /** The first step offered is the second waypoint of the path, or its only one. */
  lemma NextWaypointAgrees(n: Navigator, start: Pos, goal: Pos, scope: LocalPlanScope, found: Option<seq<GridCell>>)
    requires ValidNavigator(n)
    ensures var path, next := FindPath(n, start, goal, scope, found), NextWaypoint(n, start, goal, scope, found);
            next == if path.Some? then NextWaypointFromPath(path.value) else None
  {
    match ResolveRoute(n, start, goal, scope, found) {
      case Direct(s, g) =>
        DirectPath(n.terrain, s, g, start, goal);
      case _ =>
    }
  }

  // ----- the search window

  /** The window is the part of the map within `radius` cells of the centre on each axis. */
  lemma WindowExact(t: Terrain, center: GridCell, radius: nat, c: GridCell)
    requires ValidTerrain(t) && ContainsCell(t, center)
    ensures SearchBounds(t, center, radius).Contains(c) <==>
              && ContainsCell(t, c)
              && center.x <= c.x + radius && c.x <= center.x + radius
              && center.y <= c.y + radius && c.y <= center.y + radius
  {
  }

  lemma CeilExact(v: real)
    ensures (Ceil(v) - 1) as real < v <= Ceil(v) as real
  {
    assert (-v).Floor as real <= -v < (-v).Floor as real + 1.0;
  }

  lemma EdgesAround(q: real, n: int, size: real)
    requires size > 0.0 && (n - 1) as real < q <= n as real
    ensures Edge(n - 1, size) < q * size <= Edge(n, size)
  {
    StrictScale((n - 1) as real, q, size);
    if q < n as real {
      StrictScale(q, n as real, size);
    }
  }

  /** The radius in cells is the least whole number of cells that covers the radius. */
  lemma RadiusExact(scope: LocalPlanScope, t: Terrain, n: nat)
    requires ValidTerrain(t) && SearchRadiusCells(scope, t) == Some(n)
    ensures Edge(n - 1, t.cellSize) < scope.radius <= Edge(n, t.cellSize)
  {
    var q := scope.radius / t.cellSize;
    CeilExact(q);
    EdgesAround(q, n, t.cellSize);
    assert q * t.cellSize == scope.radius;
  }

  /** With `len` the distance from start to goal, in scope means that it is at most the radius. */
  lemma ScopeExact(scope: LocalPlanScope, start: Pos, goal: Pos, len: real)
    requires len >= 0.0
    requires len * len == (goal.x - start.x) * (goal.x - start.x) + (goal.y - start.y) * (goal.y - start.y)
    ensures GoalIsInScope(scope, start, goal) <==> len <= scope.radius
  {
    if 0.0 <= scope.radius < len {
      SquareOrder(scope.radius, len);
    } else if len < scope.radius {
      SquareOrder(len, scope.radius);
    }
  }

  lemma SquareBounds(d: real, e: real, r: real)
    requires r >= 0.0 && d * d + e * e <= r * r
    ensures -r <= d <= r
  {
    assert e * e >= 0.0;
    if d > r {
      SquareOrder(r, d);
    } else if d < -r {
      SquareOrder(r, -d);
    }
  }

  lemma ScopeBounds(scope: LocalPlanScope, start: Pos, goal: Pos)
    requires GoalIsInScope(scope, start, goal)
    ensures -scope.radius <= goal.x - start.x <= scope.radius && -scope.radius <= goal.y - start.y <= scope.radius
  {
    SquareBounds(goal.x - start.x, goal.y - start.y, scope.radius);
    SquareBounds(goal.y - start.y, goal.x - start.x, scope.radius);
  }

  /** On one axis: no more than `n` strips from `s` to `g`. */
  lemma AxisInWindow(s: nat, g: nat, n: nat, size: real, from: real, to: real)
    requires size > 0.0 && -Edge(n, size) <= to - from <= Edge(n, size)
    requires Edge(s, size) <= from < Edge(s + 1, size) && Edge(g, size) <= to < Edge(g + 1, size)
    ensures s <= g + n && g <= s + n
  {
    assert Edge(s + 1, size) + Edge(n, size) == Edge(s + 1 + n, size);
    EdgeOrder(s + 1 + n, g, size);
    assert Edge(g + 1, size) + Edge(n, size) == Edge(g + 1 + n, size);
    EdgeOrder(g + 1 + n, s, size);
  }

  /** The window never cuts off a goal that is in scope. */
  lemma ScopeInWindow(t: Terrain, scope: LocalPlanScope, start: Pos, goal: Pos, s: GridCell, g: GridCell, n: nat)
    requires ValidTerrain(t) && SearchRadiusCells(scope, t) == Some(n) && GoalIsInScope(scope, start, goal)
    requires CellForPoint(t, start) == Some(s) && CellForPoint(t, goal) == Some(g)
    ensures SearchBounds(t, s, n).Contains(g)
  {
    CellForPointBounds(t, start);
    CellForPointBounds(t, goal);
    RadiusExact(scope, t, n);
    ScopeBounds(scope, start, goal);
    AxisInWindow(s.x, g.x, n, t.cellSize, start.x, goal.x);
    AxisInWindow(s.y, g.y, n, t.cellSize, start.y, goal.y);
  }

  // ----- when there is a path

  ghost predicate BoundedWalk(t: Terrain, bounds: GridBounds, p: seq<GridCell>, a: GridCell, b: GridCell)
    requires ValidTerrain(t)
  {
    WalkJoins(t, p, a, b) && forall i :: 0 <= i < |p| ==> bounds.Contains(p[i])
  }

  lemma WalkIsChain(t: Terrain, bounds: GridBounds, p: seq<GridCell>, a: GridCell, b: GridCell)
    requires ValidTerrain(t) && BoundedWalk(t, bounds, p, a, b)
    ensures IsChain(t, bounds, p, a, b) && Connected(t, a, b) && bounds.Contains(b)
  {
    forall i | 0 <= i < |p| - 1 ensures IsSuccessor(t, bounds, p[i], p[i + 1]) {
      assert Adjacent(p[i], p[i + 1]);
      Neighbors4Exact(t, p[i], p[i + 1]);
    }
  }

  lemma ChainIsBoundedWalk(t: Terrain, radius: nat, p: seq<GridCell>, start: GridCell, goal: GridCell)
    requires ValidTerrain(t) && Walkable(t, start)
    requires IsChain(t, SearchBounds(t, start, radius), p, start, goal)
    ensures BoundedWalk(t, SearchBounds(t, start, radius), p, start, goal)
  {
    var bounds := SearchBounds(t, start, radius);
    ChainIsWalk(t, bounds, p, start, goal);
    forall i | 0 <= i < |p| ensures bounds.Contains(p[i]) {
      if i > 0 {
        assert IsSuccessor(t, bounds, p[i - 1], p[i - 1 + 1]);
      }
    }
  }

  /** Some walk inside the search window joins the two cells. */
  ghost predicate LocallyReachable(t: Terrain, scope: LocalPlanScope, s: GridCell, g: GridCell)
    requires ValidTerrain(t)
  {
    var radius := SearchRadiusCells(scope, t);
    radius.Some? && exists p :: BoundedWalk(t, SearchBounds(t, s, radius.value), p, s, g)
  }

  /** A path comes back exactly when both points are on the map and either the segment is clear or
      the goal is in scope and a walk inside the search window reaches it. */
  lemma FindPathExact(n: Navigator, start: Pos, goal: Pos, scope: LocalPlanScope, found: Option<seq<GridCell>>)
    requires ValidNavigator(n) && PlannerAnswer(n, start, goal, scope, found)
    ensures var s, g := CellForPoint(n.terrain, start), CellForPoint(n.terrain, goal);
            FindPath(n, start, goal, scope, found).Some? <==>
              && s.Some? && g.Some?
              && (|| SegmentClear(n.terrain, start, goal)
                  || (GoalIsInScope(scope, start, goal) && LocallyReachable(n.terrain, scope, s.value, g.value)))
  {
    var t := n.terrain;
    var s, g, radius := CellForPoint(t, start), CellForPoint(t, goal), SearchRadiusCells(scope, t);
    if s.Some? && g.Some? && radius.Some? && !SegmentClear(t, start, goal) && GoalIsInScope(scope, start, goal) {
      var bounds := SearchBounds(t, s.value, radius.value);
      if LocallyReachable(t, scope, s.value, g.value) {
        var p :| BoundedWalk(t, bounds, p, s.value, g.value);
        WalkIsChain(t, bounds, p, s.value, g.value);
      } else if ResolveRoute(n, start, goal, scope, found).Planned? {
        ChainIsBoundedWalk(t, radius.value, found.value, s.value, g.value);
      }
    }
  }
}
