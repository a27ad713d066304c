/** What the traversal guarantees about the geometry of the segment it walks. */
module LineOfSight {
  import opened Grid
  import opened Segment

  function Along(start: real, goal: real, u: real): real {
    start + (goal - start) * u
  }

  function Lerp(start: Pos, goal: Pos, u: real): Pos {
    Pos(Along(start.x, goal.x, u), Along(start.y, goal.y, u))
  }

  predicate CanStand(t: Terrain, p: Pos)
    requires ValidTerrain(t)
  {
    var c := CellForPoint(t, p);
    c.Some? && Walkable(t, c.value)
  }

  /** No open cell met by the line during `[lo, hi]` is blocked. */
  ghost predicate ClearDuring(t: Terrain, tr: Traversal, lo: real, hi: real)
    requires ValidTerrain(t)
  {
    forall u: real, c :: lo <= u <= hi && InOpen(t, c, tr.Point(u)) ==> Walkable(t, c)
  }

  /** The part of the segment up to parameter `hi` meets no blocked cell's interior. */
  ghost predicate AvoidsBlocked(t: Terrain, start: Pos, goal: Pos, hi: real)
    requires ValidTerrain(t)
  {
    forall u: real, c :: 0.0 <= u <= hi && InOpen(t, c, Lerp(start, goal, u)) ==> Walkable(t, c)
  }

  // ----- soundness

  lemma InCellClear(t: Terrain, tr: Traversal, lo: real, hi: real)
    requires ValidTerrain(t) && AxisOk(tr.x, t.cellSize) && AxisOk(tr.y, t.cellSize)
    requires InClosed(t, tr.Cell(), tr.Point(lo)) && InClosed(t, tr.Cell(), tr.Point(hi))
    requires Walkable(t, tr.Cell())
    ensures ClearDuring(t, tr, lo, hi)
  {
    forall u: real, c | lo <= u <= hi && InOpen(t, c, tr.Point(u)) ensures Walkable(t, c) {
      StripConvex(tr.x, t.cellSize, lo, u, hi);
      StripConvex(tr.y, t.cellSize, lo, u, hi);
      OpenMeetsClosed(t, c, tr.Cell(), tr.Point(u));
    }
  }

  lemma SameLine(tr: Traversal, u: real)
    ensures Step(tr).Point(u) == tr.Point(u)
  {
  }

  /** The cells a step tests all touch the line at the moment of the step. */
  lemma TestedCellsTouch(t: Terrain, tr: Traversal, target: GridCell)
    requires CanProceed(t, tr, target) && tr.Cell() != target
    ensures InClosed(t, Step(tr).Cell(), tr.Point(Step(tr).lastEnterT))
    ensures KindOf(tr).Corner? ==> InClosed(t, CornerCell(tr), tr.Point(Step(tr).lastEnterT))
  {
    StepOk(t, tr, target);
    SameLine(tr, Step(tr).lastEnterT);
  }

  lemma JoinClear(t: Terrain, tr: Traversal, lo: real, mid: real, hi: real)
    requires ValidTerrain(t)
    requires ClearDuring(t, tr, lo, mid) && ClearDuring(t, Step(tr), mid, hi)
    ensures ClearDuring(t, tr, lo, hi)
  {
    forall u: real, c | lo <= u <= hi && InOpen(t, c, tr.Point(u)) ensures Walkable(t, c) {
      SameLine(tr, u);
      assert mid <= u ==> InOpen(t, c, Step(tr).Point(u));
    }
  }

  /** From any loop state the walk's verdict speaks for the whole rest of the line. */
  lemma {:induction false} WalkSound(t: Terrain, tr: Traversal, target: GridCell)
    requires CanProceed(t, tr, target) && Walkable(t, tr.Cell())
    requires InClosed(t, target, tr.Point(1.0))
    ensures match Walk(t, tr, target)
            case Complete => ClearDuring(t, tr, tr.lastEnterT, 1.0)
            case Blocked(b, e) =>
              && tr.lastEnterT <= e && !Walkable(t, b)
              && InClosed(t, b, tr.Point(e)) && ClearDuring(t, tr, tr.lastEnterT, e)
    decreases Room(tr.x, t.width) + Room(tr.y, t.height)
  {
    if tr.Cell() == target {
      InCellClear(t, tr, tr.lastEnterT, 1.0);
    } else {
      StepOk(t, tr, target);
      var next := Step(tr);
      TestedCellsTouch(t, tr, target);
      InCellClear(t, tr, tr.lastEnterT, next.lastEnterT);
      if !(KindOf(tr).Corner? && !Walkable(t, CornerCell(tr))) && Walkable(t, next.Cell()) {
        SameLine(tr, 1.0);
        WalkSound(t, next, target);
        match Walk(t, next, target) {
          case Complete =>
            JoinClear(t, tr, tr.lastEnterT, next.lastEnterT, 1.0);
          case Blocked(_, e) =>
            SameLine(tr, e);
            JoinClear(t, tr, tr.lastEnterT, next.lastEnterT, e);
        }
      }
    }
  }

  predicate OnLine(a: Axis, start: real, goal: real) {
    a.origin == start && a.delta == goal - start
  }

  lemma OnLineCoord(a: Axis, start: real, goal: real, u: real)
    requires OnLine(a, start, goal)
    ensures a.Coord(u) == Along(start, goal, u)
  {
  }

  lemma FollowsLerp(tr: Traversal, start: Pos, goal: Pos, u: real)
    requires OnLine(tr.x, start.x, goal.x) && OnLine(tr.y, start.y, goal.y)
    ensures tr.Point(u) == Lerp(start, goal, u)
  {
    OnLineCoord(tr.x, start.x, goal.x, u);
    OnLineCoord(tr.y, start.y, goal.y, u);
  }

  lemma PointIsLerp(t: Terrain, start: Pos, goal: Pos, u: real)
    requires ValidTerrain(t) && NewTraversal(t, start, goal).Some?
    ensures NewTraversal(t, start, goal).value.Point(u) == Lerp(start, goal, u)
  {
    FollowsLerp(NewTraversal(t, start, goal).value, start, goal, u);
  }

  lemma ClearFromStart(t: Terrain, start: Pos, goal: Pos, hi: real)
    requires ValidTerrain(t) && NewTraversal(t, start, goal).Some?
    requires ClearDuring(t, NewTraversal(t, start, goal).value, 0.0, hi)
    ensures AvoidsBlocked(t, start, goal, hi)
  {
    var tr := NewTraversal(t, start, goal).value;
    forall u: real, c | 0.0 <= u <= hi && InOpen(t, c, Lerp(start, goal, u)) ensures Walkable(t, c) {
      PointIsLerp(t, start, goal, u);
      assert InOpen(t, c, tr.Point(u));
    }
  }

  /** A clear verdict, for any two points at all, means the segment meets no blocked interior. */
  lemma SegmentClearSound(t: Terrain, start: Pos, goal: Pos)
    requires ValidTerrain(t) && SegmentClear(t, start, goal)
    ensures AvoidsBlocked(t, start, goal, 1.0)
  {
    var tr := NewTraversal(t, start, goal).value;
    NewTraversalOk(t, start, goal);
    CellForPointBounds(t, goal);
    WalkSound(t, tr, CellForPoint(t, goal).value);
    ClearFromStart(t, start, goal, 1.0);
  }

  // ----- the goal on a grid corner

  /** The goal sits on a grid corner that one axis reaches going down and the other going up. */
  predicate Overshoots(t: Terrain, start: Pos, goal: Pos)
    requires ValidTerrain(t)
  {
    var g := CellForPoint(t, goal);
    && g.Some?
    && ((start.x > goal.x && start.y < goal.y) || (start.x < goal.x && start.y > goal.y))
    && goal.x == Edge(g.value.x, t.cellSize) && goal.y == Edge(g.value.y, t.cellSize)
  }

  /** The axis has not passed its target, and the goal lies in the target's half-open strip. */
  ghost predicate OnTrack(a: Axis, size: real, target: int) {
    && AxisOk(a, size)
    && Edge(target, size) <= a.Coord(1.0) < Edge(target + 1, size)
    && (a.Step() >= 0 ==> a.cell <= target) && (a.Step() <= 0 ==> target <= a.cell)
  }

  ghost predicate OnEdge(a: Axis, size: real, target: int) {
    a.Coord(1.0) == Edge(target, size)
  }

  /** `Overshoots` read off a traversal. */
  ghost predicate Opposed(tr: Traversal, size: real, target: GridCell) {
    && tr.x.Step() * tr.y.Step() == -1
    && OnEdge(tr.x, size, target.x) && OnEdge(tr.y, size, target.y)
  }

  ghost predicate BothOnTrack(t: Terrain, tr: Traversal, target: GridCell) {
    && CanProceed(t, tr, target)
    && OnTrack(tr.x, t.cellSize, target.x) && OnTrack(tr.y, t.cellSize, target.y)
  }

  predicate InBox(c: GridCell, a: GridCell, b: GridCell) {
    && (a.x <= c.x <= b.x || b.x <= c.x <= a.x)
    && (a.y <= c.y <= b.y || b.y <= c.y <= a.y)
  }

  /** A step of a well-aimed walk moves every axis it advances strictly towards the target. */
  lemma StepOnTrack(t: Terrain, tr: Traversal, target: GridCell)
    requires BothOnTrack(t, tr, target) && tr.Cell() != target
    requires !Opposed(tr, t.cellSize, target)
    ensures BothOnTrack(t, Step(tr), target) && !Opposed(Step(tr), t.cellSize, target)
    ensures Manhattan(Step(tr).Cell(), target) < Manhattan(tr.Cell(), target)
    ensures Step(tr).lastEnterT <= 1.0
    ensures InBox(Step(tr).Cell(), tr.Cell(), target)
  {
    CrossingVersusGoal(tr.x, t.cellSize, target.x);
    CrossingVersusGoal(tr.y, t.cellSize, target.y);
    StepOk(t, tr, target);
  }

  lemma NewTraversalOnTrack(t: Terrain, start: Pos, goal: Pos)
    requires ValidTerrain(t) && NewTraversal(t, start, goal).Some?
    ensures CellForPoint(t, goal).Some?
    ensures var tr, g := NewTraversal(t, start, goal).value, CellForPoint(t, goal).value;
            BothOnTrack(t, tr, g) && (Opposed(tr, t.cellSize, g) <==> Overshoots(t, start, goal))
  {
    NewTraversalOk(t, start, goal);
    CellForPointBounds(t, start);
    CellForPointBounds(t, goal);
    var s, g := CellForPoint(t, start).value, CellForPoint(t, goal).value;
    EdgeOrder(g.x + 1, s.x, t.cellSize);
    EdgeOrder(s.x + 1, g.x, t.cellSize);
    EdgeOrder(g.y + 1, s.y, t.cellSize);
    EdgeOrder(s.y + 1, g.y, t.cellSize);
  }

  /** The loop states the walk goes through after its first, the blocked one included. */
  ghost function Visited(t: Terrain, tr: Traversal, target: GridCell): seq<Traversal>
    requires CanProceed(t, tr, target) && Walkable(t, tr.Cell())
    decreases Room(tr.x, t.width) + Room(tr.y, t.height)
  {
    if tr.Cell() == target then []
    else
      StepOk(t, tr, target);
      var next := Step(tr);
      if (KindOf(tr).Corner? && !Walkable(t, CornerCell(tr))) || !Walkable(t, next.Cell()) then [next]
      else [next] + Visited(t, next, target)
  }

  lemma {:induction false} VisitedInBox(t: Terrain, tr: Traversal, target: GridCell)
    requires BothOnTrack(t, tr, target) && Walkable(t, tr.Cell()) && !Opposed(tr, t.cellSize, target)
    ensures |Visited(t, tr, target)| <= Manhattan(tr.Cell(), target)
    ensures forall i :: 0 <= i < |Visited(t, tr, target)| ==>
              InBox(Visited(t, tr, target)[i].Cell(), tr.Cell(), target)
    decreases Manhattan(tr.Cell(), target)
  {
    if tr.Cell() != target {
      StepOnTrack(t, tr, target);
      StepOk(t, tr, target);
      var next := Step(tr);
      if !(KindOf(tr).Corner? && !Walkable(t, CornerCell(tr))) && Walkable(t, next.Cell()) {
        VisitedInBox(t, next, target);
      }
    }
  }

  /** Unless the goal is overshot, the loop runs at most |dx| + |dy| times inside the box of the
      start and goal cells. */
  lemma TraversalBounded(t: Terrain, start: Pos, goal: Pos)
    requires ValidTerrain(t) && NewTraversal(t, start, goal).Some? && !Overshoots(t, start, goal)
    requires Walkable(t, NewTraversal(t, start, goal).value.Cell())
    ensures CellForPoint(t, start).Some? && CellForPoint(t, goal).Some?
    ensures var tr := NewTraversal(t, start, goal).value;
            var s, g := CellForPoint(t, start).value, CellForPoint(t, goal).value;
            && CanProceed(t, tr, g)
            && |Visited(t, tr, g)| <= Manhattan(s, g)
            && forall i :: 0 <= i < |Visited(t, tr, g)| ==> InBox(Visited(t, tr, g)[i].Cell(), s, g)
  {
    NewTraversalOnTrack(t, start, goal);
    NewTraversalOk(t, start, goal);
    VisitedInBox(t, NewTraversal(t, start, goal).value, CellForPoint(t, goal).value);
  }

  // ----- 4-connectivity

  lemma {:induction false} WalkConnects(t: Terrain, tr: Traversal, target: GridCell)
    requires CanProceed(t, tr, target) && Walkable(t, tr.Cell())
    requires Walk(t, tr, target) == Complete
    ensures Connected(t, tr.Cell(), target)
    decreases Room(tr.x, t.width) + Room(tr.y, t.height)
  {
    ConnectedRefl(t, tr.Cell());
    if tr.Cell() != target {
      StepOk(t, tr, target);
      var next := Step(tr);
      if KindOf(tr).Corner? {
        ConnectedStep(t, tr.Cell(), tr.Cell(), CornerCell(tr));
        ConnectedStep(t, tr.Cell(), CornerCell(tr), next.Cell());
      } else {
        ConnectedStep(t, tr.Cell(), tr.Cell(), next.Cell());
      }
      WalkConnects(t, next, target);
      ConnectedTrans(t, tr.Cell(), next.Cell(), target);
    }
  }

  /** A clear segment joins cells of one 4-connected component. */
  lemma SegmentClearConnects(t: Terrain, start: Pos, goal: Pos)
    requires ValidTerrain(t) && SegmentClear(t, start, goal)
    ensures CellForPoint(t, start).Some? && CellForPoint(t, goal).Some?
    ensures Connected(t, CellForPoint(t, start).value, CellForPoint(t, goal).value)
  {
    NewTraversalOk(t, start, goal);
    WalkConnects(t, NewTraversal(t, start, goal).value, CellForPoint(t, goal).value);
  }
}
