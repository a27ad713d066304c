/** Line of sight exactly: which cells the traversal tests, read off the segment's geometry alone. */
module Sight {
  import opened Grid
  import opened Segment
  import opened LineOfSight

  // ----- the cells a segment is tested against, from its geometry alone

  /** Strip `i` holds a coordinate right after it has the value `p`: one on an edge belongs to the
      strip below when it is on its way down. */
  predicate HeldNext(p: real, delta: real, i: int, size: real) {
    if delta < 0.0 then Edge(i, size) < p <= Edge(i + 1, size) else Edge(i, size) <= p < Edge(i + 1, size)
  }

  /** The coordinate, at `p` at time `u`, moves into strip `i` then. */
  predicate Enters(p: real, delta: real, u: real, i: int, size: real) {
    (delta > 0.0 && u > 0.0 && p == Edge(i, size)) || (delta < 0.0 && p == Edge(i + 1, size))
  }

  predicate Leaves(p: real, delta: real, u: real, i: int, size: real) {
    (delta > 0.0 && u > 0.0 && p == Edge(i + 1, size)) || (delta < 0.0 && p == Edge(i, size))
  }

  /** Cell `c` holds a point that moves from `start` towards `goal` right after it is at `p`. */
  predicate PassesAt(t: Terrain, p: Pos, start: Pos, goal: Pos, c: GridCell) {
    && HeldNext(p.x, goal.x - start.x, c.x, t.cellSize)
    && HeldNext(p.y, goal.y - start.y, c.y, t.cellSize)
  }

  predicate Passes(t: Terrain, start: Pos, goal: Pos, c: GridCell, u: real) {
    PassesAt(t, Lerp(start, goal, u), start, goal, c)
  }

  /** The point, at `p` at time `u`, goes through a grid corner then, and `c` is the new column on
      the old row. */
  predicate CutsAt(t: Terrain, p: Pos, start: Pos, goal: Pos, u: real, c: GridCell) {
    && Enters(p.x, goal.x - start.x, u, c.x, t.cellSize)
    && Leaves(p.y, goal.y - start.y, u, c.y, t.cellSize)
  }

  predicate Cuts(t: Terrain, start: Pos, goal: Pos, c: GridCell, u: real) {
    CutsAt(t, Lerp(start, goal, u), start, goal, u, c)
  }

  /** A corner counts before the goal, and at the goal when both axes arrive from below. */
  predicate CornerCounts(start: Pos, goal: Pos, u: real) {
    u < 1.0 || (u == 1.0 && start.x < goal.x && start.y < goal.y)
  }

  /** Both end cells, every cell passed on the way and every cell beside a cut corner are walkable. */
  ghost predicate SightOpen(t: Terrain, start: Pos, goal: Pos)
    requires ValidTerrain(t)
  {
    && CanStand(t, start) && CanStand(t, goal)
    && (forall u: real, c :: 0.0 <= u < 1.0 && Passes(t, start, goal, c, u) ==> Walkable(t, c))
    && (forall u: real, c :: 0.0 <= u && CornerCounts(start, goal, u) && Cuts(t, start, goal, c, u) ==> Walkable(t, c))
  }

  /** The start cell, and everything the line passes or cuts up to time `hi`, also past the goal. */
  ghost predicate LineOpen(t: Terrain, start: Pos, goal: Pos, hi: real)
    requires ValidTerrain(t)
  {
    && CanStand(t, start)
    && (forall u: real, c :: 0.0 <= u <= hi && Passes(t, start, goal, c, u) ==> Walkable(t, c))
    && (forall u: real, c :: 0.0 <= u <= hi && Cuts(t, start, goal, c, u) ==> Walkable(t, c))
  }

  // ----- one axis against those definitions

  /** A moving axis never leaves its strip at time 0 upwards, a still one is inside its strip. */
  ghost predicate Proper(a: Axis, size: real) {
    && AxisOk(a, size)
    && (a.delta > 0.0 ==> a.tMax.t > 0.0)
    && (a.delta == 0.0 ==> Edge(a.cell, size) <= a.origin < Edge(a.cell + 1, size))
  }

  /** `u` lies strictly before the next crossing. */
  ghost predicate Earlier(u: real, m: Time) {
    m.At? ==> u < m.t
  }

  lemma HeldOnce(p: real, delta: real, i: int, size: real)
    requires size > 0.0 && HeldNext(p, delta, i, size)
    ensures forall j :: HeldNext(p, delta, j, size) ==> i == j
  {
    forall j | HeldNext(p, delta, j, size) ensures i == j {
      EdgeOrder(i + 1, j, size);
      EdgeOrder(j + 1, i, size);
    }
  }

  lemma HeldWaiting(a: Axis, size: real, lo: real, u: real)
    requires Proper(a, size) && InStrip(a, size, lo) && lo <= u && Earlier(u, a.tMax)
    ensures forall i :: HeldNext(a.Coord(u), a.delta, i, size) <==> i == a.cell
  {
    ScaleOrder(a.delta, lo, u);
    if a.tMax.At? {
      ScaleOrder(a.delta, u, a.tMax.t);
    }
    HeldOnce(a.Coord(u), a.delta, a.cell, size);
  }

  lemma EdgeOnce(i: int, size: real)
    requires size > 0.0
    ensures forall j :: Edge(j, size) == Edge(i, size) ==> i == j
  {
    forall j | Edge(j, size) == Edge(i, size) ensures i == j {
      EdgeOrder(i, j, size);
      EdgeOrder(j, i, size);
    }
  }

  lemma HeldStepped(a: Axis, size: real)
    requires Proper(a, size) && a.tMax.At?
    ensures HeldNext(a.Coord(a.tMax.t), a.delta, a.cell + a.Step(), size)
    ensures forall i :: Enters(a.Coord(a.tMax.t), a.delta, a.tMax.t, i, size) <==> i == a.cell + a.Step()
    ensures forall i :: Leaves(a.Coord(a.tMax.t), a.delta, a.tMax.t, i, size) <==> i == a.cell
  {
    var edge := if a.Step() > 0 then a.cell + 1 else a.cell;
    assert a.Coord(a.tMax.t) == Edge(edge, size);
    EdgeOrder(edge - 1, edge, size);
    EdgeOrder(edge, edge + 1, size);
    EdgeOnce(edge, size);
  }

  /** After one crossing the axis is on no edge until the next. */
  lemma CrossesLater(a: Axis, size: real, u: real, i: int)
    requires Proper(a, size) && a.tMax.At? && u > a.tMax.t && a.Coord(u) == Edge(i, size)
    ensures u >= a.Advance().tMax.t
  {
    var next := a.tMax.t + a.tDelta.t;
    var edge := if a.Step() > 0 then a.cell + 1 else a.cell;
    assert a.delta * next == a.delta * a.tMax.t + a.delta * a.tDelta.t;
    ScaleOrder(a.delta, a.tMax.t, u);
    EdgeOrder(i, edge, size);
    EdgeOrder(edge, i, size);
    ScaleOrder(a.delta, u, next);
  }

  /** No edge is met before the first crossing. */
  lemma FirstCrossing(a: Axis, size: real, u: real, i: int)
    requires Proper(a, size) && Edge(a.cell, size) <= a.origin < Edge(a.cell + 1, size)
    requires a.delta != 0.0 && 0.0 <= u && a.Coord(u) == Edge(i, size)
    requires a.delta > 0.0 ==> u > 0.0
    ensures a.tMax.t <= u
  {
    ScaleOrder(a.delta, 0.0, u);
    EdgeOrder(i, a.cell, size);
    EdgeOrder(a.cell + 1, i, size);
    assert if a.delta > 0.0 then a.cell + 1 <= i else i <= a.cell;
    ScaleOrder(a.delta, u, a.tMax.t);
  }

  lemma ProperAdvance(a: Axis, size: real)
    requires Proper(a, size) && a.tMax.At?
    ensures Proper(a.Advance(), size)
  {
    AdvanceOk(a, size);
  }

  // ----- one step of the walk against those definitions

  /** The traversal is a state of the walk from `start` to `goal`. */
  ghost predicate Follows(t: Terrain, tr: Traversal, start: Pos, goal: Pos, target: GridCell) {
    && CanProceed(t, tr, target) && Proper(tr.x, t.cellSize) && Proper(tr.y, t.cellSize)
    && OnLine(tr.x, start.x, goal.x) && OnLine(tr.y, start.y, goal.y)
  }

  /** Neither axis has passed `u` yet. */
  ghost predicate Pending(tr: Traversal, u: real) {
    tr.x.tMax.At? && tr.y.tMax.At? && tr.x.tMax.t <= u && tr.y.tMax.t <= u
  }

  lemma StepFollows(t: Terrain, tr: Traversal, start: Pos, goal: Pos, target: GridCell)
    requires Follows(t, tr, start, goal, target) && tr.Cell() != target
    ensures Follows(t, Step(tr), start, goal, target)
  {
    StepOk(t, tr, target);
    if KindOf(tr) != StepY {
      ProperAdvance(tr.x, t.cellSize);
    }
    if KindOf(tr) != StepX {
      ProperAdvance(tr.y, t.cellSize);
    }
  }

  /** Until the step the line passes the old cell only. */
  lemma StepQuiet(t: Terrain, tr: Traversal, start: Pos, goal: Pos, target: GridCell, u: real)
    requires Follows(t, tr, start, goal, target)
    requires tr.lastEnterT <= u && Earlier(u, tr.x.tMax) && Earlier(u, tr.y.tMax)
    ensures forall c :: Passes(t, start, goal, c, u) ==> c == tr.Cell()
  {
    FollowsLerp(tr, start, goal, u);
    HeldWaiting(tr.x, t.cellSize, tr.lastEnterT, u);
    HeldWaiting(tr.y, t.cellSize, tr.lastEnterT, u);
  }

  /** The cells a step tests are one the line passes and, at a corner, one it cuts. */
  lemma StepSeen(t: Terrain, tr: Traversal, start: Pos, goal: Pos, target: GridCell)
    requires Follows(t, tr, start, goal, target) && tr.Cell() != target
    ensures var next := Step(tr);
            && Passes(t, start, goal, next.Cell(), next.lastEnterT)
            && (KindOf(tr).Corner? ==> Cuts(t, start, goal, CornerCell(tr), next.lastEnterT))
  {
    var now := Step(tr).lastEnterT;
    StepOk(t, tr, target);
    FollowsLerp(tr, start, goal, now);
    if KindOf(tr) == StepY {
      HeldWaiting(tr.x, t.cellSize, tr.lastEnterT, now);
    } else {
      HeldStepped(tr.x, t.cellSize);
    }
    if KindOf(tr) == StepX {
      HeldWaiting(tr.y, t.cellSize, tr.lastEnterT, now);
    } else {
      HeldStepped(tr.y, t.cellSize);
    }
  }

  lemma StepKeepsPending(t: Terrain, tr: Traversal, target: GridCell, u: real)
    requires CanProceed(t, tr, target) && tr.Cell() != target && Pending(Step(tr), u)
    ensures Pending(tr, u)
  {
    StepOk(t, tr, target);
  }

  /** A corner still ahead is the one the step cuts, or still ahead after the step. */
  lemma StepPending(t: Terrain, tr: Traversal, start: Pos, goal: Pos, target: GridCell, u: real, c: GridCell)
    requires Follows(t, tr, start, goal, target) && tr.Cell() != target
    requires Pending(tr, u) && Cuts(t, start, goal, c, u)
    ensures Step(tr).lastEnterT <= u
    ensures (KindOf(tr).Corner? && u == Step(tr).lastEnterT && c == CornerCell(tr)) || Pending(Step(tr), u)
  {
    FollowsLerp(tr, start, goal, u);
    HeldStepped(tr.x, t.cellSize);
    HeldStepped(tr.y, t.cellSize);
    if u > tr.x.tMax.t {
      CrossesLater(tr.x, t.cellSize, u, if tr.x.delta > 0.0 then c.x else c.x + 1);
    }
    if u > tr.y.tMax.t {
      CrossesLater(tr.y, t.cellSize, u, if tr.y.delta > 0.0 then c.y + 1 else c.y);
    }
  }

  lemma NewAxisProper(start: real, goal: real, cell: int, size: real)
    requires size > 0.0 && Edge(cell, size) <= start < Edge(cell + 1, size)
    ensures Proper(NewAxis(start, goal, cell, size), size)
  {
    var a := NewAxis(start, goal, cell, size);
    NewAxisOk(start, goal, cell, size);
    if a.delta > 0.0 {
      ScaleOrder(a.delta, a.tMax.t, 0.0);
    }
  }

  lemma NewTraversalFollows(t: Terrain, start: Pos, goal: Pos)
    requires ValidTerrain(t) && NewTraversal(t, start, goal).Some?
    ensures CellForPoint(t, goal).Some?
    ensures Follows(t, NewTraversal(t, start, goal).value, start, goal, CellForPoint(t, goal).value)
  {
    var tr := NewTraversal(t, start, goal).value;
    assert Proper(tr.x, t.cellSize) && Proper(tr.y, t.cellSize) by {
      CellForPointBounds(t, start);
      NewAxisProper(start.x, goal.x, tr.x.cell, t.cellSize);
      NewAxisProper(start.y, goal.y, tr.y.cell, t.cellSize);
    }
    NewTraversalOk(t, start, goal);
  }

  /** Every corner the line cuts from time 0 on is still ahead of a new traversal. */
  lemma NewTraversalPending(t: Terrain, start: Pos, goal: Pos, u: real, c: GridCell)
    requires ValidTerrain(t) && NewTraversal(t, start, goal).Some? && 0.0 <= u && Cuts(t, start, goal, c, u)
    ensures Pending(NewTraversal(t, start, goal).value, u)
  {
    var tr, g := NewTraversal(t, start, goal).value, CellForPoint(t, goal).value;
    NewTraversalFollows(t, start, goal);
    CellForPointBounds(t, start);
    FollowsLerp(tr, start, goal, u);
    FirstCrossing(tr.x, t.cellSize, u, if tr.x.delta > 0.0 then c.x else c.x + 1);
    FirstCrossing(tr.y, t.cellSize, u, if tr.y.delta > 0.0 then c.y + 1 else c.y);
  }

  // ----- how far an overshot walk gets, exactly

  /** One axis descends exactly onto the goal while the other ascends exactly onto it: before
      time 1 neither is done, and after it the descending axis is past its target for good. */
  ghost predicate Missing(down: Axis, up: Axis, size: real, downTarget: int, upTarget: int) {
    && AxisOk(down, size) && AxisOk(up, size)
    && down.Step() < 0 && up.Step() > 0
    && OnEdge(down, size, downTarget) && OnEdge(up, size, upTarget)
    && (down.cell < downTarget || (downTarget <= down.cell && up.cell < upTarget))
  }

  ghost predicate WillMiss(tr: Traversal, size: real, target: GridCell) {
    || Missing(tr.x, tr.y, size, target.x, target.y)
    || Missing(tr.y, tr.x, size, target.y, target.x)
  }

  lemma StepStillMisses(t: Terrain, tr: Traversal, target: GridCell)
    requires CanProceed(t, tr, target) && WillMiss(tr, t.cellSize, target)
    ensures tr.Cell() != target && WillMiss(Step(tr), t.cellSize, target)
  {
    EdgeOrder(target.x, target.x, t.cellSize);
    EdgeOrder(target.y, target.y, t.cellSize);
    CrossingVersusGoal(tr.x, t.cellSize, target.x);
    CrossingVersusGoal(tr.y, t.cellSize, target.y);
    StepOk(t, tr, target);
  }

  /** What is left of `LineOpen` from a state of the walk on. */
  ghost predicate LineAhead(t: Terrain, tr: Traversal, start: Pos, goal: Pos, hi: real)
    requires ValidTerrain(t)
  {
    && (forall u: real, c :: tr.lastEnterT <= u <= hi && Passes(t, start, goal, c, u) ==> Walkable(t, c))
    && (forall u: real, c :: Pending(tr, u) && u <= hi && Cuts(t, start, goal, c, u) ==> Walkable(t, c))
  }

  lemma LineStep(t: Terrain, tr: Traversal, start: Pos, goal: Pos, target: GridCell, hi: real)
    requires Follows(t, tr, start, goal, target) && tr.Cell() != target && Walkable(t, tr.Cell())
    ensures var next := Step(tr);
            LineAhead(t, tr, start, goal, hi) <==>
              && LineAhead(t, next, start, goal, hi)
              && (next.lastEnterT <= hi ==>
                    Walkable(t, next.Cell()) && (KindOf(tr).Corner? ==> Walkable(t, CornerCell(tr))))
  {
    var next := Step(tr);
    StepOk(t, tr, target);
    StepSeen(t, tr, start, goal, target);
    if LineAhead(t, tr, start, goal, hi) {
      forall u: real, c | Pending(next, u) && u <= hi && Cuts(t, start, goal, c, u) ensures Walkable(t, c) {
        StepKeepsPending(t, tr, target, u);
      }
      assert Pending(tr, next.lastEnterT) || !KindOf(tr).Corner?;
    } else if LineAhead(t, next, start, goal, hi) {
      if next.lastEnterT <= hi ==> KindOf(tr).Corner? ==> Walkable(t, CornerCell(tr)) {
        forall u: real, c | tr.lastEnterT <= u <= hi && Passes(t, start, goal, c, u) ensures Walkable(t, c) {
          if u < next.lastEnterT {
            StepQuiet(t, tr, start, goal, target, u);
          }
        }
        forall u: real, c | Pending(tr, u) && u <= hi && Cuts(t, start, goal, c, u) ensures Walkable(t, c) {
          StepPending(t, tr, start, goal, target, u, c);
        }
      }
    }
  }

  lemma NothingAhead(t: Terrain, tr: Traversal, start: Pos, goal: Pos, target: GridCell, hi: real)
    requires CanProceed(t, tr, target) && tr.lastEnterT > hi
    ensures LineAhead(t, tr, start, goal, hi)
  {
  }

  /** A walk that misses its target is still going at time `hi` exactly when all is open until then. */
  lemma {:induction false} MissedWalkExact(t: Terrain, tr: Traversal, start: Pos, goal: Pos, target: GridCell, hi: real)
    requires Follows(t, tr, start, goal, target) && Walkable(t, tr.Cell()) && WillMiss(tr, t.cellSize, target)
    ensures Walk(t, tr, target).Blocked?
    ensures Walk(t, tr, target).enterT > hi <==> LineAhead(t, tr, start, goal, hi)
    decreases Room(tr.x, t.width) + Room(tr.y, t.height)
  {
    StepStillMisses(t, tr, target);
    StepFollows(t, tr, start, goal, target);
    LineStep(t, tr, start, goal, target, hi);
    StepOk(t, tr, target);
    var next := Step(tr);
    if !(KindOf(tr).Corner? && !Walkable(t, CornerCell(tr))) && Walkable(t, next.Cell()) {
      MissedWalkExact(t, next, start, goal, target, hi);
    } else if next.lastEnterT > hi {
      NothingAhead(t, next, start, goal, target, hi);
    }
  }

  lemma OvershotWillMiss(t: Terrain, start: Pos, goal: Pos)
    requires ValidTerrain(t) && Overshoots(t, start, goal) && NewTraversal(t, start, goal).Some?
    ensures CellForPoint(t, goal).Some?
    ensures WillMiss(NewTraversal(t, start, goal).value, t.cellSize, CellForPoint(t, goal).value)
  {
    var tr, g := NewTraversal(t, start, goal).value, CellForPoint(t, goal).value;
    NewTraversalOk(t, start, goal);
    NewTraversalOnTrack(t, start, goal);
    CellForPointBounds(t, start);
    EdgeOrder(tr.x.cell, g.x, t.cellSize);
    EdgeOrder(tr.y.cell, g.y, t.cellSize);
  }

  /** On its way to an overshot goal the walk is still going at time `hi` exactly when the line is
      open until then. */
  lemma OvershotExact(t: Terrain, start: Pos, goal: Pos, hi: real)
    requires ValidTerrain(t) && Overshoots(t, start, goal) && OnMap(t, start) && hi >= 0.0
    ensures WalkSegment(t, start, goal).Some? && WalkSegment(t, start, goal).value.Blocked?
    ensures WalkSegment(t, start, goal).value.enterT > hi <==> LineOpen(t, start, goal, hi)
  {
    CellForPointBounds(t, start);
    var tr, g := NewTraversal(t, start, goal).value, CellForPoint(t, goal).value;
    NewTraversalOk(t, start, goal);
    if CanStand(t, start) {
      NewTraversalFollows(t, start, goal);
      OvershotWillMiss(t, start, goal);
      MissedWalkExact(t, tr, start, goal, g, hi);
      forall u: real, c | 0.0 <= u && Cuts(t, start, goal, c, u) ensures Pending(tr, u) {
        NewTraversalPending(t, start, goal, u, c);
      }
    }
  }

  // ----- line of sight, exactly

  /** What is left of `SightOpen` from a state of the walk on. */
  ghost predicate SightAhead(t: Terrain, tr: Traversal, start: Pos, goal: Pos)
    requires ValidTerrain(t)
  {
    && (forall u: real, c :: tr.lastEnterT <= u < 1.0 && Passes(t, start, goal, c, u) ==> Walkable(t, c))
    && (forall u: real, c :: Pending(tr, u) && CornerCounts(start, goal, u) && Cuts(t, start, goal, c, u) ==>
        Walkable(t, c))
  }

  ghost predicate Aimed(t: Terrain, tr: Traversal, start: Pos, goal: Pos, target: GridCell) {
    Follows(t, tr, start, goal, target) && BothOnTrack(t, tr, target) && !Opposed(tr, t.cellSize, target)
  }

  /** In the target cell nothing is left to test. */
  lemma SightArrived(t: Terrain, tr: Traversal, start: Pos, goal: Pos, target: GridCell)
    requires Aimed(t, tr, start, goal, target) && tr.Cell() == target && Walkable(t, target)
    ensures SightAhead(t, tr, start, goal)
  {
    CrossingVersusGoal(tr.x, t.cellSize, target.x);
    CrossingVersusGoal(tr.y, t.cellSize, target.y);
    forall u: real, c | tr.lastEnterT <= u < 1.0 && Passes(t, start, goal, c, u) ensures Walkable(t, c) {
      StepQuiet(t, tr, start, goal, target, u);
    }
  }

  /** A step at the time of the goal is the last one, and cuts a corner only from below. */
  lemma LastStep(t: Terrain, tr: Traversal, start: Pos, goal: Pos, target: GridCell)
    requires Aimed(t, tr, start, goal, target) && tr.Cell() != target
    ensures Aimed(t, Step(tr), start, goal, target) && Step(tr).lastEnterT <= 1.0
    ensures Step(tr).lastEnterT == 1.0 ==> Step(tr).Cell() == target
    ensures KindOf(tr).Corner? ==> CornerCounts(start, goal, Step(tr).lastEnterT)
  {
    StepOnTrack(t, tr, target);
    StepFollows(t, tr, start, goal, target);
    CrossingVersusGoal(tr.x, t.cellSize, target.x);
    CrossingVersusGoal(tr.y, t.cellSize, target.y);
  }

  /** What a step tests and what is left after it make up what was left before it. */
  lemma SightStep(t: Terrain, tr: Traversal, start: Pos, goal: Pos, target: GridCell)
    requires Aimed(t, tr, start, goal, target) && tr.Cell() != target && Walkable(t, tr.Cell())
    ensures var next := Step(tr);
            SightAhead(t, tr, start, goal) <==>
              SightAhead(t, next, start, goal) && (KindOf(tr).Corner? ==> Walkable(t, CornerCell(tr)))
  {
    var next := Step(tr);
    StepOk(t, tr, target);
    LastStep(t, tr, start, goal, target);
    StepSeen(t, tr, start, goal, target);
    if SightAhead(t, tr, start, goal) {
      forall u: real, c | Pending(next, u) && CornerCounts(start, goal, u) && Cuts(t, start, goal, c, u)
        ensures Walkable(t, c)
      {
        StepKeepsPending(t, tr, target, u);
      }
      assert Pending(tr, next.lastEnterT) || !KindOf(tr).Corner?;
    }
    if SightAhead(t, next, start, goal) && (KindOf(tr).Corner? ==> Walkable(t, CornerCell(tr))) {
      forall u: real, c | tr.lastEnterT <= u < 1.0 && Passes(t, start, goal, c, u) ensures Walkable(t, c) {
        if u < next.lastEnterT {
          StepQuiet(t, tr, start, goal, target, u);
        }
      }
      forall u: real, c | Pending(tr, u) && CornerCounts(start, goal, u) && Cuts(t, start, goal, c, u)
        ensures Walkable(t, c)
      {
        StepPending(t, tr, start, goal, target, u, c);
      }
    }
  }

  lemma {:induction false} WalkExact(t: Terrain, tr: Traversal, start: Pos, goal: Pos, target: GridCell)
    requires Aimed(t, tr, start, goal, target) && Walkable(t, tr.Cell())
    ensures Walk(t, tr, target) == Complete <==> Walkable(t, target) && SightAhead(t, tr, start, goal)
    decreases Manhattan(tr.Cell(), target)
  {
    if tr.Cell() == target {
      SightArrived(t, tr, start, goal, target);
    } else {
      var next := Step(tr);
      LastStep(t, tr, start, goal, target);
      SightStep(t, tr, start, goal, target);
      StepSeen(t, tr, start, goal, target);
      StepOnTrack(t, tr, target);
      StepOk(t, tr, target);
      if Walkable(t, next.Cell()) {
        WalkExact(t, next, start, goal, target);
      } else if Walkable(t, target) {
        assert next.lastEnterT < 1.0;
      }
    }
  }

  /** Line of sight is granted exactly when both points are on the map, the goal is not overshot, and
      every cell the geometry of the segment calls for is walkable. */
  lemma SegmentClearExact(t: Terrain, start: Pos, goal: Pos)
    requires ValidTerrain(t)
    ensures SegmentClear(t, start, goal) <==> !Overshoots(t, start, goal) && SightOpen(t, start, goal)
  {
    if NewTraversal(t, start, goal).Some? && CanStand(t, start) {
      var tr, g := NewTraversal(t, start, goal).value, CellForPoint(t, goal).value;
      NewTraversalOk(t, start, goal);
      NewTraversalOnTrack(t, start, goal);
      NewTraversalFollows(t, start, goal);
      if Overshoots(t, start, goal) {
        OvershotWillMiss(t, start, goal);
        MissedWalkExact(t, tr, start, goal, g, 0.0);
      } else {
        WalkExact(t, tr, start, goal, g);
        forall u: real, c | 0.0 <= u && Cuts(t, start, goal, c, u) ensures Pending(tr, u) {
          NewTraversalPending(t, start, goal, u, c);
        }
      }
    }
  }

  // ----- open ground

  /** Every grid cell whose closed square the segment touches is walkable. */
  ghost predicate TouchedWalkable(t: Terrain, start: Pos, goal: Pos)
    requires ValidTerrain(t)
  {
    forall u: real, c :: 0.0 <= u <= 1.0 && ContainsCell(t, c) && InClosed(t, c, Lerp(start, goal, u)) ==>
        Walkable(t, c)
  }

  /** `p` is where a coordinate on its way from `start` to `goal` can be at time `u`. */
  predicate Between(start: real, goal: real, u: real, p: real) {
    && (start <= goal ==> start <= p <= goal) && (goal <= start ==> goal <= p <= start)
    && (goal < start && u < 1.0 ==> goal < p) && (start < goal && u > 0.0 ==> start < p)
  }

  lemma AlongBounds(start: real, goal: real, u: real)
    requires 0.0 <= u <= 1.0
    ensures Between(start, goal, u, Along(start, goal, u))
  {
    var delta := goal - start;
    assert Along(start, goal, u) == start + delta * u;
    ScaleOrder(delta, 0.0, u);
    ScaleOrder(delta, u, 1.0);
  }

  /** A strip named by the definitions lies between those of the end points. */
  lemma NamedStripOnMap(start: real, goal: real, u: real, p: real, i: int, size: real, limit: nat)
    requires size > 0.0 && 0.0 <= start < Edge(limit, size) && 0.0 <= goal < Edge(limit, size)
    requires 0.0 <= u <= 1.0 && (u == 1.0 ==> start < goal) && Between(start, goal, u, p)
    requires HeldNext(p, goal - start, i, size) || Enters(p, goal - start, u, i, size)
        || Leaves(p, goal - start, u, i, size)
    ensures 0 <= i < limit && Edge(i, size) <= p <= Edge(i + 1, size)
  {
    assert Edge(0, size) == 0.0;
    EdgeOrder(i, i + 1, size);
    EdgeOrder(limit, i, size);
    EdgeOrder(limit, i + 1, size);
    EdgeOrder(i, 0, size);
    EdgeOrder(i + 1, 0, size);
  }

  lemma NamedCellOnMap(t: Terrain, start: Pos, goal: Pos, u: real, p: Pos, c: GridCell)
    requires ValidTerrain(t) && OnMap(t, start) && OnMap(t, goal) && 0.0 <= u <= 1.0
    requires Between(start.x, goal.x, u, p.x) && Between(start.y, goal.y, u, p.y)
    requires PassesAt(t, p, start, goal, c) || CutsAt(t, p, start, goal, u, c)
    requires u == 1.0 ==> start.x < goal.x && start.y < goal.y
    ensures ContainsCell(t, c) && InClosed(t, c, p)
  {
    NamedStripOnMap(start.x, goal.x, u, p.x, c.x, t.cellSize, t.width);
    NamedStripOnMap(start.y, goal.y, u, p.y, c.y, t.cellSize, t.height);
  }

  lemma LerpBetween(start: Pos, goal: Pos, u: real)
    requires 0.0 <= u <= 1.0
    ensures Between(start.x, goal.x, u, Lerp(start, goal, u).x) && Between(start.y, goal.y, u, Lerp(start, goal, u).y)
  {
    AlongBounds(start.x, goal.x, u);
    AlongBounds(start.y, goal.y, u);
  }

  lemma TouchedMeansOpen(t: Terrain, start: Pos, goal: Pos)
    requires ValidTerrain(t) && TouchedWalkable(t, start, goal) && OnMap(t, start) && OnMap(t, goal)
    ensures SightOpen(t, start, goal)
  {
    assert CanStand(t, start) && CanStand(t, goal) by {
      CellForPointBounds(t, start);
      CellForPointBounds(t, goal);
      assert InClosed(t, CellForPoint(t, start).value, Lerp(start, goal, 0.0));
      assert InClosed(t, CellForPoint(t, goal).value, Lerp(start, goal, 1.0));
    }
    forall u: real, c | 0.0 <= u < 1.0 && Passes(t, start, goal, c, u) ensures Walkable(t, c) {
      LerpBetween(start, goal, u);
      NamedCellOnMap(t, start, goal, u, Lerp(start, goal, u), c);
    }
    forall u: real, c | 0.0 <= u && CornerCounts(start, goal, u) && Cuts(t, start, goal, c, u) ensures Walkable(t, c) {
      LerpBetween(start, goal, u);
      NamedCellOnMap(t, start, goal, u, Lerp(start, goal, u), c);
    }
  }

  /** Where nothing the segment touches is blocked, the verdict is "clear" exactly when the goal is
      not a corner approached downwards on one axis and upwards on the other. */
  lemma ClearOnOpenGround(t: Terrain, start: Pos, goal: Pos)
    requires ValidTerrain(t) && TouchedWalkable(t, start, goal) && OnMap(t, start) && OnMap(t, goal)
    ensures SegmentClear(t, start, goal) <==> !Overshoots(t, start, goal)
  {
    TouchedMeansOpen(t, start, goal);
    SegmentClearExact(t, start, goal);
  }
}
