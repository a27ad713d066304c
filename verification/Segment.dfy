/** The Amanatides/Woo grid traversal behind line of sight and clipping, over exact reals. */
module Segment {
  import opened Common
  import opened Grid

  /** A crossing time; `Never` is the infinity an axis without motion carries. */
  datatype Time = At(t: real) | Never

  predicate Before(a: Time, b: Time) {
    a.At? && (b.Never? || a.t < b.t)
  }

  function Plus(a: Time, b: Time): Time {
    if a.At? && b.At? then At(a.t + b.t) else Never
  }

  function StepDirection(delta: real): int {
    if delta > 0.0 then 1 else if delta < 0.0 then -1 else 0
  }

  function FirstBoundary(cell: int, step: int, size: real): real {
    Edge(if step > 0 then cell + 1 else cell, size)
  }

  function InitialBoundaryT(boundary: real, start: real, delta: real): Time {
    if delta == 0.0 then Never else At((boundary - start) / delta)
  }

  function BoundaryStepT(size: real, delta: real): Time {
    if delta == 0.0 then Never else At(size / (if delta < 0.0 then -delta else delta))
  }

  // ----- one axis

  /** What the traversal keeps for one axis, with the line `origin + delta * t` it follows. */
  datatype Axis = Axis(origin: real, delta: real, cell: int, tMax: Time, tDelta: Time) {
    function Step(): int {
      StepDirection(delta)
    }

    function Coord(t: real): real {
      origin + delta * t
    }

    function Advance(): Axis {
      this.(cell := cell + Step(), tMax := Plus(tMax, tDelta))
    }
  }

  function NewAxis(start: real, goal: real, cell: int, size: real): Axis {
    var delta := goal - start;
    Axis(start, delta, cell,
         InitialBoundaryT(FirstBoundary(cell, StepDirection(delta), size), start, delta),
         BoundaryStepT(size, delta))
  }

  /** `tMax` is the time of the next boundary ahead of `cell`, kept in product form. */
  ghost predicate AxisOk(a: Axis, size: real) {
    && size > 0.0
    && (a.delta == 0.0 ==> a.tMax.Never? && a.tDelta.Never?)
    && (a.delta != 0.0 ==>
          && a.tMax.At? && a.tDelta.At? && a.tDelta.t > 0.0
          && a.delta * a.tMax.t == FirstBoundary(a.cell, a.Step(), size) - a.origin
          && a.delta * a.tDelta.t == a.Step() as real * size)
  }

  ghost predicate InStrip(a: Axis, size: real, t: real) {
    Edge(a.cell, size) <= a.Coord(t) <= Edge(a.cell + 1, size)
  }

  ghost predicate NotLater(t: real, m: Time) {
    m.At? ==> t <= m.t
  }

  lemma DivMul(a: real, b: real)
    requires b != 0.0
    ensures b * (a / b) == a
  {
  }

  lemma ScaleOrder(d: real, a: real, b: real)
    ensures a <= b && d >= 0.0 ==> d * a <= d * b
    ensures a <= b && d <= 0.0 ==> d * b <= d * a
    ensures a < b && d > 0.0 ==> d * a < d * b
    ensures a < b && d < 0.0 ==> d * b < d * a
  {
    if a <= b {
      assert d * b - d * a == d * (b - a);
    }
  }

  lemma NewAxisOk(start: real, goal: real, cell: int, size: real)
    requires size > 0.0 && Edge(cell, size) <= start < Edge(cell + 1, size)
    ensures var a := NewAxis(start, goal, cell, size);
            AxisOk(a, size) && NotLater(0.0, a.tMax) && InStrip(a, size, 0.0) && a.Coord(1.0) == goal
  {
    var a := NewAxis(start, goal, cell, size);
    var delta := goal - start;
    if delta != 0.0 {
      var boundary := FirstBoundary(cell, StepDirection(delta), size);
      DivMul(boundary - start, delta);
      var abs := if delta < 0.0 then -delta else delta;
      DivMul(size, abs);
      ScaleOrder(delta, a.tMax.t, 0.0);
      ScaleOrder(abs, a.tDelta.t, 0.0);
    }
  }

  lemma AdvanceOk(a: Axis, size: real)
    requires AxisOk(a, size) && a.tMax.At?
    ensures var b := a.Advance();
            && AxisOk(b, size) && NotLater(a.tMax.t, b.tMax) && InStrip(b, size, a.tMax.t)
            && b.cell == a.cell + a.Step() && a.Step() != 0
  {
    var b := a.Advance();
    EdgeOrder(a.cell, a.cell, size);
    EdgeOrder(a.cell - 1, a.cell, size);
    EdgeOrder(a.cell + 1, a.cell + 1, size);
    assert a.delta * b.tMax.t == a.delta * a.tMax.t + a.delta * a.tDelta.t;
  }

  lemma CoordOrder(a: Axis, u: real, v: real)
    requires u <= v
    ensures a.delta >= 0.0 ==> a.Coord(u) <= a.Coord(v)
    ensures a.delta <= 0.0 ==> a.Coord(v) <= a.Coord(u)
  {
    ScaleOrder(a.delta, u, v);
  }

  /** Between two times in the strip the line stays in the strip. */
  lemma StripConvex(a: Axis, size: real, lo: real, mid: real, hi: real)
    requires lo <= mid <= hi && InStrip(a, size, lo) && InStrip(a, size, hi)
    ensures InStrip(a, size, mid)
  {
    CoordOrder(a, lo, mid);
    CoordOrder(a, mid, hi);
  }

  lemma StripUntilBoundary(a: Axis, size: real, lo: real, mid: real)
    requires AxisOk(a, size) && InStrip(a, size, lo)
    requires lo <= mid && NotLater(mid, a.tMax)
    ensures InStrip(a, size, mid)
  {
    if a.tMax.At? {
      EdgeOrder(a.cell, a.cell, size);
      StripConvex(a, size, lo, mid, a.tMax.t);
    }
  }

  /** Whether a boundary is crossed before the end of the segment is where it lies to the goal. */
  lemma CrossingTime(d: real, m: real, reach: real)
    requires d != 0.0 && d * m == reach
    ensures d > 0.0 ==> (m < 1.0 <==> reach < d) && (m == 1.0 <==> reach == d)
    ensures d < 0.0 ==> (m < 1.0 <==> reach > d) && (m == 1.0 <==> reach == d)
  {
    ScaleOrder(d, m, 1.0);
    ScaleOrder(d, 1.0, m);
  }

  /** An ascending axis crosses into its target no later than the goal and leaves it after. */
  lemma AscendingVersusGoal(a: Axis, size: real, target: int)
    requires AxisOk(a, size) && a.Step() > 0
    requires Edge(target, size) <= a.Coord(1.0) < Edge(target + 1, size)
    ensures a.cell < target ==> a.tMax.t <= 1.0
    ensures a.cell < target - 1 ==> a.tMax.t < 1.0
    ensures a.cell == target - 1 ==> (a.tMax.t == 1.0 <==> a.Coord(1.0) == Edge(target, size))
    ensures a.cell == target ==> a.tMax.t > 1.0
  {
    CrossingTime(a.delta, a.tMax.t, Edge(a.cell + 1, size) - a.origin);
    EdgeOrder(a.cell + 1, target, size);
  }

  /** A descending axis crosses into its target before the goal and leaves it no earlier. */
  lemma DescendingVersusGoal(a: Axis, size: real, target: int)
    requires AxisOk(a, size) && a.Step() < 0
    requires Edge(target, size) <= a.Coord(1.0) < Edge(target + 1, size)
    ensures target < a.cell ==> a.tMax.t < 1.0
    ensures target == a.cell ==>
              a.tMax.t >= 1.0 && (a.tMax.t == 1.0 <==> a.Coord(1.0) == Edge(target, size))
  {
    CrossingTime(a.delta, a.tMax.t, Edge(a.cell, size) - a.origin);
    EdgeOrder(target + 1, a.cell, size);
  }

  /** While cells remain, the next crossing is not after the goal; once none do, not before it. */
  lemma CrossingVersusGoal(a: Axis, size: real, target: int)
    requires AxisOk(a, size)
    requires Edge(target, size) <= a.Coord(1.0) < Edge(target + 1, size)
    ensures a.Step() > 0 && a.cell < target ==> a.tMax.t <= 1.0
    ensures a.Step() > 0 && a.cell < target - 1 ==> a.tMax.t < 1.0
    ensures a.Step() > 0 && a.cell == target - 1 ==> (a.tMax.t == 1.0 <==> a.Coord(1.0) == Edge(target, size))
    ensures a.Step() > 0 && a.cell == target ==> a.tMax.t > 1.0
    ensures a.Step() < 0 && target < a.cell ==> a.tMax.t < 1.0
    ensures a.Step() < 0 && target == a.cell ==>
              a.tMax.t >= 1.0 && (a.tMax.t == 1.0 <==> a.Coord(1.0) == Edge(target, size))
  {
    if a.Step() > 0 {
      AscendingVersusGoal(a, size, target);
    } else if a.Step() < 0 {
      DescendingVersusGoal(a, size, target);
    }
  }

  // ----- the traversal

  datatype Traversal = Traversal(x: Axis, y: Axis, lastEnterT: real) {
    function Cell(): GridCell {
      GridCell(x.cell, y.cell)
    }

    function Point(t: real): Pos {
      Pos(x.Coord(t), y.Coord(t))
    }
  }

  datatype StepKind = StepX | StepY | Corner

  function KindOf(tr: Traversal): StepKind {
    if Before(tr.x.tMax, tr.y.tMax) then StepX
    else if Before(tr.y.tMax, tr.x.tMax) then StepY
    else Corner
  }

  function Step(tr: Traversal): Traversal {
    match KindOf(tr)
    case StepX => Traversal(tr.x.Advance(), tr.y, tr.x.tMax.t)
    case StepY => Traversal(tr.x, tr.y.Advance(), tr.y.tMax.t)
    case Corner =>
      Traversal(tr.x.Advance(), tr.y.Advance(), if tr.x.tMax.At? then tr.x.tMax.t else tr.lastEnterT)
  }

  /** The extra cell a corner step tests: the new column on the old row. */
  function CornerCell(tr: Traversal): GridCell {
    GridCell(Step(tr).x.cell, tr.y.cell)
  }

  datatype SegmentTrace = Complete | Blocked(cell: GridCell, enterT: real)

  ghost predicate TraversalOk(tr: Traversal, size: real) {
    && AxisOk(tr.x, size) && AxisOk(tr.y, size)
    && 0.0 <= tr.lastEnterT
    && NotLater(tr.lastEnterT, tr.x.tMax) && NotLater(tr.lastEnterT, tr.y.tMax)
    && InStrip(tr.x, size, tr.lastEnterT) && InStrip(tr.y, size, tr.lastEnterT)
  }

  /** The traversal still moves, or has nothing left to do. */
  ghost predicate CanProceed(t: Terrain, tr: Traversal, target: GridCell) {
    && ValidTerrain(t) && TraversalOk(tr, t.cellSize)
    && (tr.x.tMax.Never? && tr.y.tMax.Never? ==> tr.Cell() == target)
  }

  lemma StepOk(t: Terrain, tr: Traversal, target: GridCell)
    requires CanProceed(t, tr, target) && tr.Cell() != target
    ensures CanProceed(t, Step(tr), target)
    ensures tr.lastEnterT <= Step(tr).lastEnterT
    ensures NotLater(Step(tr).lastEnterT, tr.x.tMax) && NotLater(Step(tr).lastEnterT, tr.y.tMax)
    ensures InClosed(t, tr.Cell(), tr.Point(Step(tr).lastEnterT))
  {
    var now := Step(tr).lastEnterT;
    StripUntilBoundary(tr.x, t.cellSize, tr.lastEnterT, now);
    StripUntilBoundary(tr.y, t.cellSize, tr.lastEnterT, now);
    if KindOf(tr) != StepY {
      AdvanceOk(tr.x, t.cellSize);
    }
    if KindOf(tr) != StepX {
      AdvanceOk(tr.y, t.cellSize);
    }
  }

  /** Cells left before the walk runs off the grid on an axis. */
  function Room(a: Axis, limit: nat): nat {
    if a.Step() > 0 then (if a.cell < limit then limit - a.cell else 0)
    else if a.Step() < 0 then (if a.cell >= 0 then a.cell + 1 else 0)
    else 0
  }

  /** The trace loop from a state whose cell has passed the test. */
  function Walk(t: Terrain, tr: Traversal, target: GridCell): SegmentTrace
    requires CanProceed(t, tr, target) && Walkable(t, tr.Cell())
    decreases Room(tr.x, t.width) + Room(tr.y, t.height)
  {
    if tr.Cell() == target then Complete
    else
      StepOk(t, tr, target);
      var next := Step(tr);
      if KindOf(tr).Corner? && !Walkable(t, CornerCell(tr)) then Blocked(CornerCell(tr), next.lastEnterT)
      else if !Walkable(t, next.Cell()) then Blocked(next.Cell(), next.lastEnterT)
      else Walk(t, next, target)
  }

  /** One round of the loop. */
  lemma WalkRound(t: Terrain, tr: Traversal, target: GridCell)
    requires CanProceed(t, tr, target) && Walkable(t, tr.Cell()) && tr.Cell() != target
    ensures CanProceed(t, Step(tr), target)
    ensures var next := Step(tr);
            Walk(t, tr, target) ==
              if KindOf(tr).Corner? && !Walkable(t, CornerCell(tr)) then Blocked(CornerCell(tr), next.lastEnterT)
              else if !Walkable(t, next.Cell()) then Blocked(next.Cell(), next.lastEnterT)
              else Walk(t, next, target)
    ensures Walkable(t, Step(tr).Cell()) ==>
              Room(Step(tr).x, t.width) + Room(Step(tr).y, t.height) < Room(tr.x, t.width) + Room(tr.y, t.height)
  {
    StepOk(t, tr, target);
  }

  function TraversalFrom(cell: GridCell, start: Pos, goal: Pos, size: real): Traversal {
    Traversal(NewAxis(start.x, goal.x, cell.x, size), NewAxis(start.y, goal.y, cell.y, size), 0.0)
  }

  lemma TraversalFromOk(cell: GridCell, start: Pos, goal: Pos, size: real)
    requires size > 0.0
    requires Edge(cell.x, size) <= start.x < Edge(cell.x + 1, size)
    requires Edge(cell.y, size) <= start.y < Edge(cell.y + 1, size)
    ensures var tr := TraversalFrom(cell, start, goal, size);
            TraversalOk(tr, size) && tr.Point(0.0) == start && tr.Point(1.0) == goal
  {
    NewAxisOk(start.x, goal.x, cell.x, size);
    NewAxisOk(start.y, goal.y, cell.y, size);
  }

  function NewTraversal(t: Terrain, start: Pos, goal: Pos): Option<Traversal>
    requires ValidTerrain(t)
  {
    var s, g := CellForPoint(t, start), CellForPoint(t, goal);
    if s.None? || g.None? then None
    else Some(TraversalFrom(s.value, start, goal, t.cellSize))
  }

  lemma NewTraversalOk(t: Terrain, start: Pos, goal: Pos)
    requires ValidTerrain(t) && NewTraversal(t, start, goal).Some?
    ensures CellForPoint(t, start).Some? && CellForPoint(t, goal).Some?
    ensures var tr := NewTraversal(t, start, goal).value;
            && tr.Cell() == CellForPoint(t, start).value
            && CanProceed(t, tr, CellForPoint(t, goal).value)
            && tr.Point(0.0) == start && tr.Point(1.0) == goal
  {
    CellForPointBounds(t, start);
    TraversalFromOk(CellForPoint(t, start).value, start, goal, t.cellSize);
    var tr := NewTraversal(t, start, goal).value;
    if tr.x.delta == 0.0 && tr.y.delta == 0.0 {
      assert start == goal;
    }
  }

  /** `walk_segment` with the walkability test. */
  function WalkSegment(t: Terrain, start: Pos, goal: Pos): Option<SegmentTrace>
    requires ValidTerrain(t)
  {
    var n := NewTraversal(t, start, goal);
    if n.None? then None
    else
      NewTraversalOk(t, start, goal);
      if !Walkable(t, n.value.Cell()) then Some(Blocked(n.value.Cell(), 0.0))
      else Some(Walk(t, n.value, CellForPoint(t, goal).value))
  }

  predicate SegmentClear(t: Terrain, start: Pos, goal: Pos)
    requires ValidTerrain(t)
  {
    WalkSegment(t, start, goal) == Some(Complete)
  }

  // ----- the loop the source runs

  /** The traversal as the source keeps it: one object whose cursor and crossing times move. */
  class SegmentTraversal {
    const terrain: Terrain
    const target: GridCell
    const stepX: int
    const stepY: int
    const tDeltaX: Time
    const tDeltaY: Time
    ghost const origin: Pos
    ghost const delta: Pos
    var currentX: int
    var currentY: int
    var tMaxX: Time
    var tMaxY: Time
    var lastEnterT: real

    ghost function View(): Traversal
      reads this
    {
      Traversal(Axis(origin.x, delta.x, currentX, tMaxX, tDeltaX),
                Axis(origin.y, delta.y, currentY, tMaxY, tDeltaY), lastEnterT)
    }

    ghost predicate Valid()
      reads this
    {
      && CanProceed(terrain, View(), target)
      && stepX == StepDirection(delta.x) && stepY == StepDirection(delta.y)
    }

    constructor (t: Terrain, start: Pos, goal: Pos)
      requires ValidTerrain(t) && NewTraversal(t, start, goal).Some?
      ensures terrain == t && CellForPoint(t, goal) == Some(target)
      ensures Valid() && View() == NewTraversal(t, start, goal).value
    {
      NewTraversalOk(t, start, goal);
      var s := CellForPoint(t, start).value;
      var dx, dy := goal.x - start.x, goal.y - start.y;
      terrain, target := t, CellForPoint(t, goal).value;
      stepX, stepY := StepDirection(dx), StepDirection(dy);
      tDeltaX, tDeltaY := BoundaryStepT(t.cellSize, dx), BoundaryStepT(t.cellSize, dy);
      origin, delta := start, Pos(dx, dy);
      currentX, currentY := s.x, s.y;
      tMaxX := InitialBoundaryT(FirstBoundary(s.x, StepDirection(dx), t.cellSize), start.x, dx);
      tMaxY := InitialBoundaryT(FirstBoundary(s.y, StepDirection(dy), t.cellSize), start.y, dy);
      lastEnterT := 0.0;
    }

    method StepCursor() returns (kind: StepKind)
      requires Valid() && View().Cell() != target
      modifies this
      ensures Valid() && kind == KindOf(old(View())) && View() == Step(old(View()))
    {
      StepOk(terrain, View(), target);
      if Before(tMaxX, tMaxY) {
        lastEnterT := tMaxX.t;
        currentX := currentX + stepX;
        tMaxX := Plus(tMaxX, tDeltaX);
        kind := StepX;
      } else if Before(tMaxY, tMaxX) {
        lastEnterT := tMaxY.t;
        currentY := currentY + stepY;
        tMaxY := Plus(tMaxY, tDeltaY);
        kind := StepY;
      } else {
        lastEnterT := tMaxX.t;
        currentX, currentY := currentX + stepX, currentY + stepY;
        tMaxX, tMaxY := Plus(tMaxX, tDeltaX), Plus(tMaxY, tDeltaY);
        kind := Corner;
      }
    }

    method Trace() returns (r: SegmentTrace)
      requires Valid() && lastEnterT == 0.0
      modifies this
      ensures r == if Walkable(terrain, old(View().Cell())) then Walk(terrain, old(View()), target)
                   else Blocked(old(View().Cell()), 0.0)
    {
      ghost var first := View();
      var startCell := GridCell(currentX, currentY);
      if !Walkable(terrain, startCell) {
        return Blocked(startCell, 0.0);
      }
      if startCell == target {
        return Complete;
      }
      while GridCell(currentX, currentY) != target
        invariant Valid() && Walkable(terrain, View().Cell())
        invariant Walk(terrain, View(), target) == Walk(terrain, first, target)
        decreases Room(View().x, terrain.width) + Room(View().y, terrain.height)
      {
        var previousY := currentY;
        WalkRound(terrain, View(), target);
        var kind := StepCursor();
        if kind.Corner? && !Walkable(terrain, GridCell(currentX, previousY)) {
          return Blocked(GridCell(currentX, previousY), lastEnterT);
        }
        if !Walkable(terrain, GridCell(currentX, currentY)) {
          return Blocked(GridCell(currentX, currentY), lastEnterT);
        }
      }
      return Complete;
    }
  }

  method TraceSegment(t: Terrain, start: Pos, goal: Pos) returns (r: Option<SegmentTrace>)
    requires ValidTerrain(t)
    ensures r == WalkSegment(t, start, goal)
    ensures r.Some? <==> OnMap(t, start) && OnMap(t, goal)
  {
    CellForPointBounds(t, start);
    CellForPointBounds(t, goal);
    if CellForPoint(t, start).None? || CellForPoint(t, goal).None? {
      return None;
    }
    NewTraversalOk(t, start, goal);
    var traversal := new SegmentTraversal(t, start, goal);
    var trace := traversal.Trace();
    r := Some(trace);
  }
}
