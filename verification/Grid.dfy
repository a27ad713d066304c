/** The terrain grid: cells, points, walkability and 4-connectivity. */
module Grid {
  import opened Common

  /** A cell address.  The source stores `usize` coordinates; the segment cursor is signed and is
      cast back, so a negative coordinate here stands for a value no grid contains. */
  datatype GridCell = GridCell(x: int, y: int)

  datatype Pos = Pos(x: real, y: real)

  datatype TerrainFlags = TerrainFlags(block: bool, water: bool, safezone: bool, obstacle: bool)

  predicate IsWalkable(flags: TerrainFlags) {
    !(flags.block || flags.obstacle)
  }

  datatype Terrain = Terrain(cellSize: real, width: nat, height: nat, flags: seq<TerrainFlags>)

  predicate ValidTerrain(t: Terrain) {
    t.cellSize > 0.0 && t.width > 0 && t.height > 0 && |t.flags| == t.width * t.height
  }

  predicate ContainsCell(t: Terrain, c: GridCell) {
    0 <= c.x < t.width && 0 <= c.y < t.height
  }

  lemma IndexInRange(w: nat, h: nat, x: nat, y: nat)
    requires x < w && y < h
    ensures 0 <= y * w + x < w * h
  {
    assert (y + 1) * w <= h * w;
  }

  function IndexOf(t: Terrain, c: GridCell): (i: nat)
    requires ContainsCell(t, c)
    ensures i < t.width * t.height
  {
    IndexInRange(t.width, t.height, c.x, c.y);
    c.y * t.width + c.x
  }

  lemma RowOrder(w: nat, y: nat, y': nat)
    requires w > 0 && y < y'
    ensures y * w + w <= y' * w
  {
    MulOrder(y + 1, y', w);
  }

  lemma IndexOrder(t: Terrain, a: GridCell, b: GridCell)
    requires ContainsCell(t, a) && ContainsCell(t, b) && a.y < b.y
    ensures IndexOf(t, a) < IndexOf(t, b)
  {
    RowOrder(t.width, a.y, b.y);
  }

  /** Row-major indexing never sends two cells to one slot. */
  lemma IndexInjective(t: Terrain, a: GridCell, b: GridCell)
    requires ContainsCell(t, a) && ContainsCell(t, b) && a != b
    ensures IndexOf(t, a) != IndexOf(t, b)
  {
    if a.y < b.y {
      IndexOrder(t, a, b);
    } else if b.y < a.y {
      IndexOrder(t, b, a);
    }
  }

  /** False outside the grid, as `flags_at` answers `None` there. */
  predicate Walkable(t: Terrain, c: GridCell)
    requires ValidTerrain(t)
  {
    ContainsCell(t, c) && IsWalkable(t.flags[IndexOf(t, c)])
  }

  // ----- points and cells

  function Edge(i: int, size: real): real {
    i as real * size
  }

  lemma EdgeOrder(i: int, j: int, size: real)
    requires size > 0.0
    ensures i < j ==> Edge(i, size) + size <= Edge(j, size)
    ensures Edge(i + 1, size) == Edge(i, size) + size
    ensures i == j ==> Edge(i, size) == Edge(j, size)
  {
    if i < j {
      var gap := (j - i) as real;
      assert gap >= 1.0;
      assert gap * size >= size;
      assert Edge(j, size) - Edge(i, size) == gap * size;
    }
  }

  function AxisCell(coord: real, size: real, limit: nat): (c: Option<nat>)
    requires size > 0.0
  {
    if coord < 0.0 then None
    else
      var cell := (coord / size).Floor;
      if cell < 0 then None else if cell < limit then Some(cell) else None
  }

  lemma StrictScale(a: real, b: real, size: real)
    requires a < b && size > 0.0
    ensures a * size < b * size
  {
    assert (b - a) * size > 0.0;
  }

  lemma SquareOrder(a: real, b: real)
    requires 0.0 <= a < b
    ensures a * a < b * b
  {
    assert b * b - a * a == (b - a) * (b + a);
    StrictScale(0.0, b - a, b + a);
  }

  lemma EdgeAround(q: real, lo: int, size: real)
    requires size > 0.0 && lo as real <= q < lo as real + 1.0
    ensures Edge(lo, size) <= q * size < Edge(lo + 1, size)
  {
    assert q * size < Edge(lo + 1, size) by {
      StrictScale(q, (lo + 1) as real, size);
    }
    assert Edge(lo, size) <= q * size by {
      if lo as real < q {
        StrictScale(lo as real, q, size);
      }
    }
  }

  /** A coordinate gets a cell exactly when it lies on the axis, and then its own half-open strip. */
  lemma AxisCellBounds(coord: real, size: real, limit: nat)
    requires size > 0.0
    ensures var c := AxisCell(coord, size, limit);
            && (c.Some? <==> 0.0 <= coord < Edge(limit, size))
            && (c.Some? ==> c.value < limit && Edge(c.value, size) <= coord < Edge(c.value + 1, size))
  {
    var lo := (coord / size).Floor;
    EdgeAround(coord / size, lo, size);
    assert coord / size * size == coord;
    EdgeOrder(lo + 1, limit, size);
    EdgeOrder(limit, lo, size);
    EdgeOrder(lo + 1, 0, size);
  }

  /** The point lies in the rectangle the grid covers, its upper edges excluded. */
  predicate OnMap(t: Terrain, p: Pos) {
    0.0 <= p.x < Edge(t.width, t.cellSize) && 0.0 <= p.y < Edge(t.height, t.cellSize)
  }

  function CellForPoint(t: Terrain, p: Pos): Option<GridCell>
    requires ValidTerrain(t)
  {
    var x := AxisCell(p.x, t.cellSize, t.width);
    var y := AxisCell(p.y, t.cellSize, t.height);
    if x.None? || y.None? then None else Some(GridCell(x.value, y.value))
  }

  /** Exactly the points of the map get a cell, and the cell is the half-open square around them. */
  lemma CellForPointBounds(t: Terrain, p: Pos)
    requires ValidTerrain(t)
    ensures CellForPoint(t, p).Some? <==> OnMap(t, p)
    ensures var c := CellForPoint(t, p);
            c.Some? ==>
              && ContainsCell(t, c.value)
              && Edge(c.value.x, t.cellSize) <= p.x < Edge(c.value.x + 1, t.cellSize)
              && Edge(c.value.y, t.cellSize) <= p.y < Edge(c.value.y + 1, t.cellSize)
  {
    AxisCellBounds(p.x, t.cellSize, t.width);
    AxisCellBounds(p.y, t.cellSize, t.height);
  }

  function CellCenter(t: Terrain, c: GridCell): Pos {
    Pos((c.x as real + 0.5) * t.cellSize, (c.y as real + 0.5) * t.cellSize)
  }

  predicate InClosed(t: Terrain, c: GridCell, p: Pos) {
    && Edge(c.x, t.cellSize) <= p.x <= Edge(c.x + 1, t.cellSize)
    && Edge(c.y, t.cellSize) <= p.y <= Edge(c.y + 1, t.cellSize)
  }

  predicate InOpen(t: Terrain, c: GridCell, p: Pos) {
    && Edge(c.x, t.cellSize) < p.x < Edge(c.x + 1, t.cellSize)
    && Edge(c.y, t.cellSize) < p.y < Edge(c.y + 1, t.cellSize)
  }

  lemma SameStrip(i: int, j: int, size: real, v: real)
    requires size > 0.0
    requires Edge(i, size) < v < Edge(i + 1, size)
    requires Edge(j, size) <= v <= Edge(j + 1, size)
    ensures i == j
  {
    EdgeOrder(i + 1, j, size);
    EdgeOrder(j + 1, i, size);
  }

  /** An open cell meets a closed cell only when they are the same cell. */
  lemma OpenMeetsClosed(t: Terrain, a: GridCell, b: GridCell, p: Pos)
    requires ValidTerrain(t) && InOpen(t, a, p) && InClosed(t, b, p)
    ensures a == b
  {
    SameStrip(a.x, b.x, t.cellSize, p.x);
    SameStrip(a.y, b.y, t.cellSize, p.y);
  }

  // ----- 4-connectivity

  function Abs(i: int): nat {
    if i < 0 then -i else i
  }

  function Manhattan(a: GridCell, b: GridCell): nat {
    Abs(a.x - b.x) + Abs(a.y - b.y)
  }

  predicate Adjacent(a: GridCell, b: GridCell) {
    Manhattan(a, b) == 1
  }

  function Neighbors4(t: Terrain, c: GridCell): seq<GridCell> {
    var left, right := GridCell(c.x - 1, c.y), GridCell(c.x + 1, c.y);
    var up, down := GridCell(c.x, c.y - 1), GridCell(c.x, c.y + 1);
    (if ContainsCell(t, left) then [left] else []) +
    (if ContainsCell(t, right) then [right] else []) +
    (if ContainsCell(t, up) then [up] else []) +
    (if ContainsCell(t, down) then [down] else [])
  }

  lemma Neighbors4Exact(t: Terrain, c: GridCell, n: GridCell)
    ensures n in Neighbors4(t, c) <==> ContainsCell(t, n) && Adjacent(c, n)
  {
    if Adjacent(c, n) {
      assert n == GridCell(c.x - 1, c.y) || n == GridCell(c.x + 1, c.y)
          || n == GridCell(c.x, c.y - 1) || n == GridCell(c.x, c.y + 1);
    }
  }

  /** A walk: walkable cells, each a side neighbour of the one before. */
  ghost predicate IsWalk(t: Terrain, p: seq<GridCell>)
    requires ValidTerrain(t)
  {
    && |p| > 0
    && (forall i :: 0 <= i < |p| ==> Walkable(t, p[i]))
    && (forall i :: 0 <= i < |p| - 1 ==> Adjacent(p[i], p[i + 1]))
  }

  ghost predicate WalkJoins(t: Terrain, p: seq<GridCell>, a: GridCell, b: GridCell)
    requires ValidTerrain(t)
  {
    IsWalk(t, p) && p[0] == a && p[|p| - 1] == b
  }

  /** Some 4-connected walkable path joins `a` to `b`. */
  ghost predicate Connected(t: Terrain, a: GridCell, b: GridCell)
    requires ValidTerrain(t)
  {
    exists p :: WalkJoins(t, p, a, b)
  }

  lemma ConnectedRefl(t: Terrain, a: GridCell)
    requires ValidTerrain(t) && Walkable(t, a)
    ensures Connected(t, a, a)
  {
    assert WalkJoins(t, [a], a, a);
  }

  lemma ConnectedStep(t: Terrain, a: GridCell, b: GridCell, c: GridCell)
    requires ValidTerrain(t) && Connected(t, a, b)
    requires Adjacent(b, c) && Walkable(t, c)
    ensures Connected(t, a, c)
  {
    var p :| WalkJoins(t, p, a, b);
    assert WalkJoins(t, p + [c], a, c);
  }

  lemma ConnectedSym(t: Terrain, a: GridCell, b: GridCell)
    requires ValidTerrain(t) && Connected(t, a, b)
    ensures Connected(t, b, a)
  {
    var p :| WalkJoins(t, p, a, b);
    var q := seq(|p|, i requires 0 <= i < |p| => p[|p| - 1 - i]);
    forall i | 0 <= i < |q| - 1 ensures Adjacent(q[i], q[i + 1]) {
      assert Adjacent(p[|p| - 2 - i], p[|p| - 2 - i + 1]);
    }
    assert WalkJoins(t, q, b, a);
  }

  lemma ConnectedTrans(t: Terrain, a: GridCell, b: GridCell, c: GridCell)
    requires ValidTerrain(t) && Connected(t, a, b) && Connected(t, b, c)
    ensures Connected(t, a, c)
  {
    var p :| WalkJoins(t, p, a, b);
    var q :| WalkJoins(t, q, b, c);
    var r := p + q[1..];
    forall i | 0 <= i < |r| - 1 ensures Adjacent(r[i], r[i + 1]) {
      if i >= |p| - 1 {
        assert r[i] == q[i - |p| + 1];
        assert r[i + 1] == q[i - |p| + 1 + 1];
      }
    }
    assert WalkJoins(t, r, a, c);
  }
}
