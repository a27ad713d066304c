/** Clipping a segment at the first blocked cell. */
module Clip {
  import opened Common
  import opened Grid
  import opened Segment
  import opened LineOfSight
  import opened Sight

  const CLIP_BACKOFF_EPSILON_M: real := 0.001
  const F32_EPSILON: real := 0.00000011920928955078125

  /** `len` is what `hypot` answers for the segment. */
  predicate IsLength(start: Pos, goal: Pos, len: real) {
    var dx, dy := goal.x - start.x, goal.y - start.y;
    len >= 0.0 && len * len == dx * dx + dy * dy
  }

  function Min(a: real, b: real): real {
    if a < b then a else b
  }

  function Max(a: real, b: real): real {
    if a < b then b else a
  }

  function ClipSegment(t: Terrain, start: Pos, goal: Pos, len: real): Pos
    requires ValidTerrain(t) && IsLength(start, goal, len)
  {
    match WalkSegment(t, start, goal)
    case Some(Complete) => goal
    case Some(Blocked(_, enterT)) =>
      if len <= F32_EPSILON || enterT <= 0.0 then start
      else
        var backoff := Min(CLIP_BACKOFF_EPSILON_M / len, enterT);
        Lerp(start, goal, Max(enterT - backoff, 0.0))
    case None => start
  }

  function BackedOff(len: real, enterT: real): real {
    if len <= F32_EPSILON || enterT <= 0.0 then 0.0
    else enterT - Min(CLIP_BACKOFF_EPSILON_M / len, enterT)
  }

  /** Where on the line a trace has the segment clipped. */
  function TimeOf(trace: Option<SegmentTrace>, len: real): real {
    match trace
    case Some(Complete) => 1.0
    case Some(Blocked(_, enterT)) => BackedOff(len, enterT)
    case None => 0.0
  }

  function ClipTime(t: Terrain, start: Pos, goal: Pos, len: real): real
    requires ValidTerrain(t)
  {
    TimeOf(WalkSegment(t, start, goal), len)
  }

  lemma {:induction false} WalkBlockedInTime(t: Terrain, tr: Traversal, target: GridCell)
    requires BothOnTrack(t, tr, target) && Walkable(t, tr.Cell()) && !Opposed(tr, t.cellSize, target)
    ensures Walk(t, tr, target).Blocked? ==> Walk(t, tr, target).enterT <= 1.0
    decreases Manhattan(tr.Cell(), target)
  {
    if tr.Cell() != target {
      StepOnTrack(t, tr, target);
      StepOk(t, tr, target);
      var next := Step(tr);
      if !(KindOf(tr).Corner? && !Walkable(t, CornerCell(tr))) && Walkable(t, next.Cell()) {
        WalkBlockedInTime(t, next, target);
      }
    }
  }

  /** What a blocked verdict says: the blocked cell touches the segment where it was entered, and
      nothing before that point is blocked. */
  lemma BlockedMeans(t: Terrain, start: Pos, goal: Pos)
    requires ValidTerrain(t) && CanStand(t, start)
    requires WalkSegment(t, start, goal).Some? && WalkSegment(t, start, goal).value.Blocked?
    ensures var b := WalkSegment(t, start, goal).value;
            && 0.0 <= b.enterT && !Walkable(t, b.cell)
            && InClosed(t, b.cell, Lerp(start, goal, b.enterT))
            && AvoidsBlocked(t, start, goal, b.enterT)
            && (!Overshoots(t, start, goal) ==> b.enterT <= 1.0)
  {
    var tr, g := NewTraversal(t, start, goal).value, CellForPoint(t, goal).value;
    var b := WalkSegment(t, start, goal).value;
    NewTraversalOk(t, start, goal);
    NewTraversalOnTrack(t, start, goal);
    CellForPointBounds(t, goal);
    WalkSound(t, tr, g);
    PointIsLerp(t, start, goal, b.enterT);
    ClearFromStart(t, start, goal, b.enterT);
    if !Overshoots(t, start, goal) {
      WalkBlockedInTime(t, tr, g);
    }
  }

  lemma BackoffDistance(len: real, enterT: real)
    requires len > 0.0 && enterT > 0.0
    ensures var b := Min(CLIP_BACKOFF_EPSILON_M / len, enterT);
            0.0 < b <= enterT && b * len <= CLIP_BACKOFF_EPSILON_M
  {
    var q := CLIP_BACKOFF_EPSILON_M / len;
    DivMul(CLIP_BACKOFF_EPSILON_M, len);
    assert q > 0.0;
    var b := Min(q, enterT);
    ScaleOrder(len, b, q);
  }

  /** A stretch of line time no longer than the backoff distance on a segment of length `len`. */
  predicate WithinBackoff(gap: real, len: real) {
    0.0 <= gap && gap * len <= CLIP_BACKOFF_EPSILON_M
  }

  /** Clipped at `u` what was entered at `e`: a millimetre is given up, or all there is up to the start. */
  predicate GivesUp(e: real, u: real, len: real) {
    (e - u) * len == 0.001 || (u == 0.0 && e * len <= 0.001)
  }

  lemma ClipGap(trace: Option<SegmentTrace>, len: real)
    requires len > F32_EPSILON && trace.Some? && trace.value.Blocked? && trace.value.enterT >= 0.0
    ensures WithinBackoff(trace.value.enterT - TimeOf(trace, len), len)
    ensures GivesUp(trace.value.enterT, TimeOf(trace, len), len)
  {
    var e := trace.value.enterT;
    if e > 0.0 {
      BackoffDistance(len, e);
      DivMul(CLIP_BACKOFF_EPSILON_M, len);
      ScaleOrder(len, e, CLIP_BACKOFF_EPSILON_M / len);
    }
  }

  lemma StartPointClear(t: Terrain, start: Pos, goal: Pos)
    requires ValidTerrain(t) && CanStand(t, start)
    ensures AvoidsBlocked(t, start, goal, 0.0)
  {
    CellForPointBounds(t, start);
    forall u: real, c | 0.0 <= u <= 0.0 && InOpen(t, c, Lerp(start, goal, u)) ensures Walkable(t, c) {
      OpenMeetsClosed(t, c, CellForPoint(t, start).value, start);
    }
  }

  lemma ClearShorter(t: Terrain, start: Pos, goal: Pos, lo: real, hi: real)
    requires ValidTerrain(t) && lo <= hi && AvoidsBlocked(t, start, goal, hi)
    ensures AvoidsBlocked(t, start, goal, lo)
  {
  }

  lemma LerpEnds(start: Pos, goal: Pos)
    ensures Lerp(start, goal, 0.0) == start && Lerp(start, goal, 1.0) == goal
  {
  }

  /** The clipped point lies on the segment (unless the goal is overshot), everything up to it is
      clear, and with nothing in the way it is the goal. */
  lemma ClipSegmentSafe(t: Terrain, start: Pos, goal: Pos, len: real)
    requires ValidTerrain(t) && IsLength(start, goal, len) && CanStand(t, start)
    ensures var u := ClipTime(t, start, goal, len);
            && 0.0 <= u && ClipSegment(t, start, goal, len) == Lerp(start, goal, u)
            && AvoidsBlocked(t, start, goal, u)
            && (!Overshoots(t, start, goal) ==> u <= 1.0)
            && (SegmentClear(t, start, goal) ==> ClipSegment(t, start, goal, len) == goal)
  {
    StartPointClear(t, start, goal);
    LerpEnds(start, goal);
    match WalkSegment(t, start, goal) {
      case Some(Complete) =>
        SegmentClearSound(t, start, goal);
      case Some(Blocked(_, e)) =>
        if len > F32_EPSILON && e > 0.0 {
          BlockedMeans(t, start, goal);
          BackoffDistance(len, e);
          ClearShorter(t, start, goal, ClipTime(t, start, goal, len), e);
        }
      case None =>
    }
  }

  lemma BlockedEntry(t: Terrain, start: Pos, goal: Pos)
    requires ValidTerrain(t) && CanStand(t, start)
    requires WalkSegment(t, start, goal).Some? && WalkSegment(t, start, goal).value.Blocked?
    ensures var b := WalkSegment(t, start, goal).value;
            0.0 <= b.enterT && !Walkable(t, b.cell) && InClosed(t, b.cell, Lerp(start, goal, b.enterT))
  {
    BlockedMeans(t, start, goal);
  }

  /** Clipping gives up a millimetre, or all there is if it is less: a blocked cell touches the segment
      that close ahead of the clipped point. */
  lemma ClipSegmentTight(t: Terrain, start: Pos, goal: Pos, len: real)
    requires ValidTerrain(t) && CanStand(t, start) && len > F32_EPSILON
    requires WalkSegment(t, start, goal).Some? && !SegmentClear(t, start, goal)
    ensures var b := WalkSegment(t, start, goal).value;
            b.Blocked? && !Walkable(t, b.cell) && InClosed(t, b.cell, Lerp(start, goal, b.enterT))
    ensures WithinBackoff(WalkSegment(t, start, goal).value.enterT - ClipTime(t, start, goal, len), len)
    ensures GivesUp(WalkSegment(t, start, goal).value.enterT, ClipTime(t, start, goal, len), len)
  {
    BlockedEntry(t, start, goal);
    ClipGap(WalkSegment(t, start, goal), len);
  }

  /** A segment that is not clear and no longer than the smallest `f32` step at one is clipped to its start. */
  lemma ClipNegligible(t: Terrain, start: Pos, goal: Pos, len: real)
    requires ValidTerrain(t) && IsLength(start, goal, len) && !SegmentClear(t, start, goal)
    requires len * 8388608.0 <= 1.0
    ensures ClipSegment(t, start, goal, len) == start
  {
    assert len <= F32_EPSILON;
  }

  /** A segment that starts where nobody can stand is clipped to its start. */
  lemma ClipFromBlockedStart(t: Terrain, start: Pos, goal: Pos, len: real)
    requires ValidTerrain(t) && IsLength(start, goal, len) && !CanStand(t, start)
    ensures ClipSegment(t, start, goal, len) == start
  {
    if NewTraversal(t, start, goal).Some? {
      NewTraversalOk(t, start, goal);
    }
  }

  // ----- the overshoot case, exactly

  lemma LengthCoversAxis(start: Pos, goal: Pos, len: real, d: real)
    requires IsLength(start, goal, len) && (d == goal.x - start.x || d == goal.y - start.y)
    ensures -len <= d <= len
  {
    if d > len {
      SquareOrder(len, d);
    } else if d < -len {
      SquareOrder(len, -d);
    }
  }

  /** In which cases the backed-off time lies past the goal. */
  lemma BackedOffPast(len: real, e: real)
    requires e >= 0.0
    ensures BackedOff(len, e) > 1.0 <==> len > F32_EPSILON && e > 1.0 + CLIP_BACKOFF_EPSILON_M / len
  {
    if len > F32_EPSILON && e > 0.0 {
      BackoffDistance(len, e);
    }
  }

  /** The clipped point lies past the goal, off the segment, exactly when the goal is overshot, the
      segment is not negligible, and the line is open to more than the backoff distance past it. */
  lemma ClipPastGoal(t: Terrain, start: Pos, goal: Pos, len: real)
    requires ValidTerrain(t) && IsLength(start, goal, len)
    ensures ClipTime(t, start, goal, len) > 1.0 <==>
              && Overshoots(t, start, goal) && len > F32_EPSILON
              && LineOpen(t, start, goal, 1.0 + CLIP_BACKOFF_EPSILON_M / len)
  {
    CellForPointBounds(t, start);
    if !CanStand(t, start) {
      if NewTraversal(t, start, goal).Some? {
        NewTraversalOk(t, start, goal);
      }
    } else if !Overshoots(t, start, goal) {
      ClipSegmentSafe(t, start, goal, len);
    } else {
      OvershotExact(t, start, goal, 0.0);
      BlockedMeans(t, start, goal);
      BackedOffPast(len, WalkSegment(t, start, goal).value.enterT);
      if len > F32_EPSILON {
        DivMul(CLIP_BACKOFF_EPSILON_M, len);
        assert CLIP_BACKOFF_EPSILON_M / len > 0.0;
        OvershotExact(t, start, goal, 1.0 + CLIP_BACKOFF_EPSILON_M / len);
      }
    }
  }

  /** Less than a cell past the edge at `goal`, a coordinate is on no edge and still in the strip it
      went into there. */
  lemma JustPast(goal: real, g: int, delta: real, p: real, size: real)
    requires size > 0.0 && goal == Edge(g, size) && delta != 0.0
    requires if delta > 0.0 then goal < p < goal + size else goal - size < p < goal
    ensures forall i :: HeldNext(p, delta, i, size) ==> HeldNext(goal, delta, i, size)
    ensures forall i :: p != Edge(i, size)
  {
    forall i ensures p != Edge(i, size) && (HeldNext(p, delta, i, size) ==> HeldNext(goal, delta, i, size)) {
      EdgeOrder(g - 1, i, size);
      EdgeOrder(g, i, size);
      EdgeOrder(i, g, size);
      EdgeOrder(i, g - 1, size);
      EdgeOrder(g, g + 1, size);
      EdgeOrder(g - 1, g, size);
      EdgeOrder(i, i + 1, size);
    }
  }

  lemma ShiftBound(delta: real, s: real, len: real, limit: real)
    requires s > 0.0 && delta != 0.0 && -len <= delta <= len && len * s <= limit
    ensures if delta > 0.0 then 0.0 < delta * s <= limit else -limit <= delta * s < 0.0
  {
    ScaleOrder(s, delta, len);
    ScaleOrder(s, -delta, len);
    ScaleOrder(delta, 0.0, s);
    assert s * -delta == -(delta * s);
  }

  /** `p` lies past `goal` on the way from `start`, by at most the backoff distance. */
  predicate LittlePast(start: real, goal: real, p: real) {
    if start < goal then goal < p <= goal + CLIP_BACKOFF_EPSILON_M
    else start > goal && goal - CLIP_BACKOFF_EPSILON_M <= p < goal
  }

  lemma AlongPast(start: real, goal: real, delta: real, u: real, s: real)
    requires delta == goal - start && s == u - 1.0
    ensures Along(start, goal, u) == goal + delta * s
  {
    assert Along(start, goal, u) == start + delta * u;
    assert delta * s == delta * u - delta;
  }

  lemma AxisLittlePast(start: real, goal: real, len: real, u: real)
    requires start != goal && -len <= goal - start <= len
    requires u > 1.0 && len * (u - 1.0) <= CLIP_BACKOFF_EPSILON_M
    ensures LittlePast(start, goal, Along(start, goal, u))
  {
    var delta, s := goal - start, u - 1.0;
    ShiftBound(delta, s, len, CLIP_BACKOFF_EPSILON_M);
    AlongPast(start, goal, delta, u, s);
  }

  /** Within the backoff distance past the goal nothing new is passed or cut. */
  lemma NothingJustPast(t: Terrain, start: Pos, goal: Pos, p: Pos, g: GridCell, u: real, c: GridCell)
    requires t.cellSize > CLIP_BACKOFF_EPSILON_M && goal.x == Edge(g.x, t.cellSize) && goal.y == Edge(g.y, t.cellSize)
    requires LittlePast(start.x, goal.x, p.x) && LittlePast(start.y, goal.y, p.y)
    ensures PassesAt(t, p, start, goal, c) ==> PassesAt(t, goal, start, goal, c)
    ensures !CutsAt(t, p, start, goal, u, c)
  {
    JustPast(goal.x, g.x, goal.x - start.x, p.x, t.cellSize);
    JustPast(goal.y, g.y, goal.y - start.y, p.y, t.cellSize);
  }

  lemma LerpLittlePast(start: Pos, goal: Pos, len: real, u: real)
    requires start.x != goal.x && -len <= goal.x - start.x <= len
    requires start.y != goal.y && -len <= goal.y - start.y <= len
    requires u > 1.0 && len * (u - 1.0) <= CLIP_BACKOFF_EPSILON_M
    ensures LittlePast(start.x, goal.x, Lerp(start, goal, u).x) && LittlePast(start.y, goal.y, Lerp(start, goal, u).y)
  {
    AxisLittlePast(start.x, goal.x, len, u);
    AxisLittlePast(start.y, goal.y, len, u);
  }

  lemma BackoffReach(len: real, u: real)
    requires len > 0.0 && u <= 1.0 + CLIP_BACKOFF_EPSILON_M / len
    ensures len * (u - 1.0) <= CLIP_BACKOFF_EPSILON_M
  {
    DivMul(CLIP_BACKOFF_EPSILON_M, len);
    ScaleOrder(len, u - 1.0, CLIP_BACKOFF_EPSILON_M / len);
  }

  /** With cells wider than the backoff, what counts is what the line meets up to the goal: the cells
      it passes and cuts on the way, and the two that its last corner step tests there. */
  lemma ClipPastGoalWideCells(t: Terrain, start: Pos, goal: Pos, len: real)
    requires ValidTerrain(t) && IsLength(start, goal, len) && t.cellSize > CLIP_BACKOFF_EPSILON_M
    ensures ClipTime(t, start, goal, len) > 1.0 <==>
              Overshoots(t, start, goal) && len > F32_EPSILON && LineOpen(t, start, goal, 1.0)
  {
    ClipPastGoal(t, start, goal, len);
    if Overshoots(t, start, goal) && len > F32_EPSILON {
      LengthCoversAxis(start, goal, len, goal.x - start.x);
      LengthCoversAxis(start, goal, len, goal.y - start.y);
      LerpEnds(start, goal);
      var hi := 1.0 + CLIP_BACKOFF_EPSILON_M / len;
      forall u: real, c | 1.0 < u <= hi
        ensures !Cuts(t, start, goal, c, u) && (Passes(t, start, goal, c, u) ==> Passes(t, start, goal, c, 1.0))
      {
        BackoffReach(len, u);
        LerpLittlePast(start, goal, len, u);
        NothingJustPast(t, start, goal, Lerp(start, goal, u), CellForPoint(t, goal).value, u, c);
      }
    }
  }

  /** On the way from (1.5, 0.5) to (1, 1) in unit cells nothing but these cells counts. */
  lemma ExampleCells(t: Terrain, u: real, c: GridCell)
    requires t.cellSize == 1.0 && 0.0 <= u <= 1.0
    ensures Passes(t, Pos(1.5, 0.5), Pos(1.0, 1.0), c, u) ==> c == GridCell(1, 0) || c == GridCell(0, 1)
    ensures Cuts(t, Pos(1.5, 0.5), Pos(1.0, 1.0), c, u) ==> c == GridCell(0, 0)
  {
    var p := Lerp(Pos(1.5, 0.5), Pos(1.0, 1.0), u);
    assert p.x == 1.5 - 0.5 * u && p.y == 0.5 + 0.5 * u;
  }

  lemma ExampleOvershoots(t: Terrain)
    requires ValidTerrain(t) && t.cellSize == 1.0 && t.width == 2 && t.height == 2
    ensures Overshoots(t, Pos(1.5, 0.5), Pos(1.0, 1.0)) && CellForPoint(t, Pos(1.5, 0.5)) == Some(GridCell(1, 0))
  {
    assert AxisCell(1.5, 1.0, 2) == Some(1) && AxisCell(0.5, 1.0, 2) == Some(0) && AxisCell(1.0, 1.0, 2) == Some(1);
    assert CellForPoint(t, Pos(1.0, 1.0)) == Some(GridCell(1, 1));
  }

  lemma ExampleOpen(t: Terrain)
    requires ValidTerrain(t) && t.cellSize == 1.0 && CellForPoint(t, Pos(1.5, 0.5)) == Some(GridCell(1, 0))
    requires Walkable(t, GridCell(1, 0)) && Walkable(t, GridCell(0, 1)) && Walkable(t, GridCell(0, 0))
    ensures LineOpen(t, Pos(1.5, 0.5), Pos(1.0, 1.0), 1.0)
  {
    var start, goal := Pos(1.5, 0.5), Pos(1.0, 1.0);
    forall u: real, c | 0.0 <= u <= 1.0
      ensures Passes(t, start, goal, c, u) || Cuts(t, start, goal, c, u) ==> Walkable(t, c)
    {
      ExampleCells(t, u, c);
    }
  }

  /** A four-cell map, whose cell (1, 1) may be blocked or not: line of sight to its corner (1, 1) is
      denied and clipping passes it. */
  lemma OvershootExample(t: Terrain, len: real)
    requires ValidTerrain(t) && t.cellSize == 1.0 && t.width == 2 && t.height == 2
    requires forall x, y :: 0 <= x < 2 && 0 <= y < 2 && (x, y) != (1, 1) ==> Walkable(t, GridCell(x, y))
    requires IsLength(Pos(1.5, 0.5), Pos(1.0, 1.0), len)
    ensures !SegmentClear(t, Pos(1.5, 0.5), Pos(1.0, 1.0))
    ensures ClipTime(t, Pos(1.5, 0.5), Pos(1.0, 1.0), len) > 1.0
  {
    var start, goal := Pos(1.5, 0.5), Pos(1.0, 1.0);
    ExampleOvershoots(t);
    ExampleOpen(t);
    if len < 0.5 {
      SquareOrder(len, 0.5);
    }
    SegmentClearExact(t, start, goal);
    ClipPastGoalWideCells(t, start, goal, len);
  }
}
