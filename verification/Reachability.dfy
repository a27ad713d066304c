/** Component labels for walkable cells, computed by repeated flood fill. */
module Reachability {
  import opened Common
  import opened Grid

  const UNASSIGNED_COMPONENT: Label := 0
  const MAX_LABEL := 255

  /** A `u8` component id. */
  type Label = x: int | 0 <= x < 256

  type Labels = map<GridCell, Label>

  datatype ReachabilityGrid = ReachabilityGrid(width: nat, height: nat, components: seq<Label>)

  predicate ValidGrid(r: ReachabilityGrid) {
    |r.components| == r.width * r.height
  }

  function ComponentForCell(r: ReachabilityGrid, c: GridCell): Option<Label>
    requires ValidGrid(r)
  {
    if c.x < 0 || c.y < 0 || c.x >= r.width || c.y >= r.height then None
    else
      IndexInRange(r.width, r.height, c.x, c.y);
      var component := r.components[c.y * r.width + c.x];
      if component == UNASSIGNED_COMPONENT then None else Some(component)
  }

  predicate SameComponent(r: ReachabilityGrid, a: GridCell, b: GridCell)
    requires ValidGrid(r)
  {
    var ca, cb := ComponentForCell(r, a), ComponentForCell(r, b);
    ca.Some? && cb.Some? && ca.value == cb.value
  }

  // ----- components, defined without the labelling

  ghost function Cells(t: Terrain): set<GridCell> {
    set x, y | 0 <= x < t.width && 0 <= y < t.height :: GridCell(x, y)
  }

  lemma CellsExact(t: Terrain)
    ensures forall c :: c in Cells(t) <==> ContainsCell(t, c)
  {
    forall c | ContainsCell(t, c) ensures c in Cells(t) {
      assert c == GridCell(c.x, c.y);
    }
  }

  ghost function Class(t: Terrain, c: GridCell): set<GridCell>
    requires ValidTerrain(t)
  {
    set d | d in Cells(t) && Connected(t, c, d)
  }

  /** The 4-connected walkable components of the map. */
  ghost function Components(t: Terrain): set<set<GridCell>>
    requires ValidTerrain(t)
  {
    set c | c in Cells(t) && Walkable(t, c) :: Class(t, c)
  }

  // ----- labellings

  /** The flat array holds the labelling in row-major order. */
  ghost predicate Mirrors(t: Terrain, a: seq<Label>, labels: Labels) {
    && |a| == t.width * t.height
    && labels.Keys == Cells(t)
    && forall c :: c in labels ==> ContainsCell(t, c) && a[IndexOf(t, c)] == labels[c]
  }

  /** Every label below `next` names exactly one whole component. */
  ghost predicate Labelled(t: Terrain, labels: Labels, next: int)
    requires ValidTerrain(t)
  {
    && labels.Keys == Cells(t)
    && (forall c :: c in labels ==> labels[c] < next && (labels[c] != 0 ==> Walkable(t, c)))
    && (forall c, d :: c in labels && d in labels && labels[c] != 0 ==>
          (labels[c] == labels[d] <==> Connected(t, c, d)))
  }

  ghost function Found(t: Terrain, labels: Labels): set<set<GridCell>>
    requires ValidTerrain(t)
  {
    set c | c in labels && labels[c] != 0 :: Class(t, c)
  }

  ghost function Unlabelled(labels: Labels): set<GridCell> {
    set c | c in labels && labels[c] == 0
  }

  lemma ConnectedInGrid(t: Terrain, a: GridCell, b: GridCell)
    requires ValidTerrain(t) && Connected(t, a, b)
    ensures Walkable(t, a) && Walkable(t, b) && a in Cells(t) && b in Cells(t)
  {
    CellsExact(t);
    var p :| WalkJoins(t, p, a, b);
  }

  // ----- flood fill

  ghost predicate FloodInv(t: Terrain, before: Labels, labels: Labels, pending: set<GridCell>, seed: GridCell,
                           id: Label)
    requires ValidTerrain(t)
  {
    && labels.Keys == before.Keys == Cells(t)
    && seed in labels && labels[seed] == id
    && (forall c :: c in labels ==>
        labels[c] == before[c] || (before[c] == 0 && labels[c] == id && Connected(t, seed, c)))
    && (forall c :: c in pending ==> c in labels && labels[c] == id)
    && (forall c, n :: c in labels && labels[c] == id && c !in pending && Adjacent(c, n) && Walkable(t, n) ==>
          n in labels && labels[n] != 0)
  }

  ghost predicate FloodPre(t: Terrain, before: Labels, seed: GridCell, id: Label)
    requires ValidTerrain(t)
  {
    && 0 < id && Labelled(t, before, id)
    && seed in before && before[seed] == 0 && Walkable(t, seed)
  }

  /** With nothing pending, the labelled region is closed, so a walk from the seed cannot leave it. */
  lemma {:induction false} FloodReaches(t: Terrain, before: Labels, labels: Labels, seed: GridCell, id: Label,
                                        p: seq<GridCell>)
    requires ValidTerrain(t) && FloodPre(t, before, seed, id) && FloodInv(t, before, labels, {}, seed, id)
    requires IsWalk(t, p) && p[0] == seed
    ensures p[|p| - 1] in labels && labels[p[|p| - 1]] == id
    decreases |p|
  {
    if |p| > 1 {
      var q := p[..|p| - 1];
      var last, end := q[|q| - 1], p[|p| - 1];
      assert Adjacent(p[|p| - 2], p[|p| - 2 + 1]);
      FloodReaches(t, before, labels, seed, id, q);
      if labels[end] != id {
        ConnectedRefl(t, end);
        assert Adjacent(end, last);
        ConnectedStep(t, end, end, last);
      }
    }
  }

  lemma FloodDone(t: Terrain, before: Labels, labels: Labels, seed: GridCell, id: Label)
    requires ValidTerrain(t) && FloodPre(t, before, seed, id) && FloodInv(t, before, labels, {}, seed, id)
    ensures forall c :: c in labels ==> labels[c] == if Connected(t, seed, c) then id else before[c]
  {
    forall c | c in labels && Connected(t, seed, c) ensures labels[c] == id {
      var p :| WalkJoins(t, p, seed, c);
      FloodReaches(t, before, labels, seed, id, p);
    }
    forall c | c in labels && !Connected(t, seed, c) ensures labels[c] == before[c] {
    }
  }

  method SetLabel(t: Terrain, a: array<Label>, ghost labels: Labels, c: GridCell, id: Label)
    returns (ghost after: Labels)
    requires ValidTerrain(t) && Mirrors(t, a[..], labels) && ContainsCell(t, c)
    modifies a
    ensures after == labels[c := id] && Mirrors(t, a[..], after)
  {
    CellsExact(t);
    a[IndexOf(t, c)] := id;
    after := labels[c := id];
    forall d | d in after ensures ContainsCell(t, d) && a[IndexOf(t, d)] == after[d] {
      if d != c {
        IndexInjective(t, c, d);
        assert old(a[..])[IndexOf(t, d)] == labels[d];
      }
    }
    assert after.Keys == Cells(t);
  }

  ghost function Set(q: seq<GridCell>): set<GridCell> {
    set c | c in q
  }

  /** Labels one unlabelled walkable neighbour and queues it; leaves any other alone. */
  method VisitNeighbor(t: Terrain, a: array<Label>, ghost before: Labels, ghost labels: Labels, queue: seq<GridCell>,
                       ghost current: GridCell, n: GridCell, ghost seed: GridCell, id: Label)
    returns (ghost after: Labels, rest: seq<GridCell>)
    requires ValidTerrain(t) && FloodPre(t, before, seed, id) && Mirrors(t, a[..], labels)
    requires FloodInv(t, before, labels, {current} + Set(queue), seed, id)
    requires current in labels && ContainsCell(t, n) && Adjacent(current, n)
    modifies a
    ensures Mirrors(t, a[..], after) && FloodInv(t, before, after, {current} + Set(rest), seed, id)
    ensures Walkable(t, n) ==> n in after && after[n] != 0
    ensures forall c :: c in labels && labels[c] != 0 ==> c in after && after[c] != 0
    ensures (after == labels && rest == queue) || Unlabelled(after) < Unlabelled(labels)
  {
    CellsExact(t);
    after, rest := labels, queue;
    if a[IndexOf(t, n)] != UNASSIGNED_COMPONENT || !Walkable(t, n) {
      return;
    }
    after := SetLabel(t, a, labels, n, id);
    rest := queue + [n];
    assert Set(rest) == Set(queue) + {n};
    assert Connected(t, seed, n) by {
      if current == seed {
        ConnectedRefl(t, seed);
      }
      assert before[current] != id;
      ConnectedStep(t, seed, current, n);
    }
    assert n in Unlabelled(labels) && n !in Unlabelled(after);
  }

  lemma FloodStart(t: Terrain, before: Labels, seed: GridCell, id: Label)
    requires ValidTerrain(t) && FloodPre(t, before, seed, id)
    ensures FloodInv(t, before, before[seed := id], {seed}, seed, id)
  {
    ConnectedRefl(t, seed);
    assert before[seed := id].Keys == before.Keys;
  }

  lemma CloseCurrent(t: Terrain, before: Labels, labels: Labels, pending: set<GridCell>, current: GridCell,
                     seed: GridCell, id: Label)
    requires ValidTerrain(t) && FloodInv(t, before, labels, {current} + pending, seed, id)
    requires forall n :: ContainsCell(t, n) && Adjacent(current, n) && Walkable(t, n) ==> n in labels && labels[n] != 0
    ensures FloodInv(t, before, labels, pending, seed, id)
  {
  }

  ghost predicate AllLabelled(t: Terrain, labels: Labels, cells: seq<GridCell>)
    requires ValidTerrain(t)
  {
    forall n :: n in cells && Walkable(t, n) ==> n in labels && labels[n] != 0
  }

  lemma AllLabelledNext(t: Terrain, was: Labels, labels: Labels, cells: seq<GridCell>, i: nat)
    requires ValidTerrain(t) && i < |cells| && AllLabelled(t, was, cells[..i])
    requires forall c :: c in was && was[c] != 0 ==> c in labels && labels[c] != 0
    requires Walkable(t, cells[i]) ==> cells[i] in labels && labels[cells[i]] != 0
    ensures AllLabelled(t, labels, cells[..i + 1])
  {
    assert cells[..i + 1] == cells[..i] + [cells[i]];
  }

  /** Expands one cell taken from the queue. */
  method ExpandCell(t: Terrain, a: array<Label>, ghost before: Labels, ghost start: Labels, queue: seq<GridCell>,
                    current: GridCell, nbrs: seq<GridCell>, ghost seed: GridCell, id: Label)
    returns (ghost labels: Labels, rest: seq<GridCell>)
    requires ValidTerrain(t) && FloodPre(t, before, seed, id) && Mirrors(t, a[..], start)
    requires forall n :: n in nbrs <==> ContainsCell(t, n) && Adjacent(current, n)
    requires FloodInv(t, before, start, {current} + Set(queue), seed, id)
    modifies a
    ensures Mirrors(t, a[..], labels) && FloodInv(t, before, labels, Set(rest), seed, id)
    ensures (labels == start && rest == queue) || Unlabelled(labels) < Unlabelled(start)
  {
    labels, rest := start, queue;
    for i := 0 to |nbrs|
      invariant Mirrors(t, a[..], labels) && FloodInv(t, before, labels, {current} + Set(rest), seed, id)
      invariant AllLabelled(t, labels, nbrs[..i])
      invariant (labels == start && rest == queue) || Unlabelled(labels) < Unlabelled(start)
    {
      var n := nbrs[i];
      assert n in nbrs;
      ghost var was := labels;
      labels, rest := VisitNeighbor(t, a, before, labels, rest, current, n, seed, id);
      AllLabelledNext(t, was, labels, nbrs, i);
    }
    assert nbrs[..|nbrs|] == nbrs;
    CloseCurrent(t, before, labels, Set(rest), current, seed, id);
  }

  method FloodFillComponent(t: Terrain, a: array<Label>, ghost before: Labels, seed: GridCell, id: Label)
    returns (ghost labels: Labels)
    requires ValidTerrain(t) && FloodPre(t, before, seed, id) && Mirrors(t, a[..], before)
    modifies a
    ensures Mirrors(t, a[..], labels)
    ensures forall c :: c in labels ==> labels[c] == if Connected(t, seed, c) then id else before[c]
  {
    CellsExact(t);
    FloodStart(t, before, seed, id);
    var queue := [seed];
    labels := SetLabel(t, a, before, seed, id);
    assert Set(queue) == {seed};
    while queue != []
      invariant Mirrors(t, a[..], labels) && FloodInv(t, before, labels, Set(queue), seed, id)
      decreases Unlabelled(labels), |queue|
    {
      var current, rest := queue[0], queue[1..];
      assert Set(queue) == {current} + Set(rest);
      forall n ensures n in Neighbors4(t, current) <==> ContainsCell(t, n) && Adjacent(current, n) {
        Neighbors4Exact(t, current, n);
      }
      labels, queue := ExpandCell(t, a, before, labels, rest, current, Neighbors4(t, current), seed, id);
    }
    assert Set(queue) == {};
    FloodDone(t, before, labels, seed, id);
  }

  // ----- the whole table

  lemma LabelledNext(t: Terrain, before: Labels, labels: Labels, seed: GridCell, id: Label)
    requires ValidTerrain(t) && FloodPre(t, before, seed, id) && labels.Keys == Cells(t)
    requires forall c :: c in labels ==> labels[c] == if Connected(t, seed, c) then id else before[c]
    ensures Labelled(t, labels, id + 1)
  {
    forall c | c in labels && labels[c] != 0 ensures Walkable(t, c) {
      if Connected(t, seed, c) {
        ConnectedInGrid(t, seed, c);
      }
    }
    forall c, d | c in labels && d in labels && labels[c] != 0
      ensures labels[c] == labels[d] <==> Connected(t, c, d)
    {
      if Connected(t, seed, c) {
        ConnectedSym(t, seed, c);
        if Connected(t, seed, d) {
          ConnectedTrans(t, c, seed, d);
        } else if Connected(t, c, d) {
          ConnectedTrans(t, seed, c, d);
        }
      } else if Connected(t, seed, d) && Connected(t, c, d) {
        ConnectedSym(t, c, d);
        ConnectedTrans(t, seed, d, c);
      }
    }
  }

  lemma ClassEqual(t: Terrain, a: GridCell, b: GridCell)
    requires ValidTerrain(t) && Connected(t, a, b)
    ensures Class(t, a) == Class(t, b)
  {
    forall d | d in Cells(t) ensures Connected(t, a, d) <==> Connected(t, b, d) {
      if Connected(t, b, d) {
        ConnectedTrans(t, a, b, d);
      } else if Connected(t, a, d) {
        ConnectedSym(t, a, b);
        ConnectedTrans(t, b, a, d);
      }
    }
  }

  /** One flood fill finds exactly one component not found before. */
  lemma FoundGrows(t: Terrain, before: Labels, labels: Labels, seed: GridCell, id: Label)
    requires ValidTerrain(t) && FloodPre(t, before, seed, id) && labels.Keys == Cells(t)
    requires forall c :: c in labels ==> labels[c] == if Connected(t, seed, c) then id else before[c]
    ensures Class(t, seed) !in Found(t, before)
    ensures Found(t, labels) == Found(t, before) + {Class(t, seed)}
  {
    ConnectedRefl(t, seed);
    forall c | c in before && before[c] != 0 ensures Class(t, c) != Class(t, seed) {
      assert seed in Class(t, seed);
      assert !Connected(t, c, seed);
    }
    forall s | s in Found(t, labels) ensures s in Found(t, before) + {Class(t, seed)} {
      var c :| c in labels && labels[c] != 0 && s == Class(t, c);
      if Connected(t, seed, c) {
        ClassEqual(t, seed, c);
      }
    }
    forall s | s in Found(t, before) ensures s in Found(t, labels) {
      var c :| c in before && before[c] != 0 && s == Class(t, c);
      assert c in labels && labels[c] != 0;
    }
    assert seed in labels && labels[seed] != 0;
  }

  lemma SubsetSize<T>(a: set<T>, b: set<T>)
    requires a <= b
    ensures |a| <= |b|
  {
    assert b == a + (b - a);
  }

  lemma FoundWithin(t: Terrain, labels: Labels, next: int)
    requires ValidTerrain(t) && Labelled(t, labels, next)
    ensures Found(t, labels) <= Components(t) && |Found(t, labels)| <= |Components(t)|
  {
    assert Found(t, labels) <= Components(t);
    SubsetSize(Found(t, labels), Components(t));
  }

  /** The table belongs to the map, and answers `same_component` exactly by connectivity. */
  ghost predicate Exact(t: Terrain, r: ReachabilityGrid)
    requires ValidTerrain(t)
  {
    && ValidGrid(r) && r.width == t.width && r.height == t.height
    && forall a, b :: SameComponent(r, a, b) <==> Connected(t, a, b)
  }

  lemma LookupExact(t: Terrain, r: ReachabilityGrid, labels: Labels, next: int)
    requires ValidTerrain(t) && Mirrors(t, r.components, labels) && Labelled(t, labels, next)
    requires r.width == t.width && r.height == t.height
    requires forall c :: c in labels && Walkable(t, c) ==> labels[c] != 0
    ensures Exact(t, r)
  {
    CellsExact(t);
    forall a, b ensures SameComponent(r, a, b) <==> Connected(t, a, b) {
      if Connected(t, a, b) {
        ConnectedInGrid(t, a, b);
      }
    }
  }

  /** The labelling so far, with as many components found as labels used. */
  ghost predicate Progress(t: Terrain, a: seq<Label>, labels: Labels, next: Label)
    requires ValidTerrain(t)
  {
    && Mirrors(t, a, labels) && Labelled(t, labels, next)
    && 1 <= next && |Found(t, labels)| == next - 1
  }

  /** Labels the component of an unlabelled walkable cell; `None` when the counter overflows. */
  method VisitCell(t: Terrain, a: array<Label>, ghost before: Labels, cell: GridCell, id: Label)
    returns (ghost labels: Labels, next: Option<Label>)
    requires ValidTerrain(t) && Progress(t, a[..], before, id) && ContainsCell(t, cell)
    modifies a
    ensures next.Some? ==> Progress(t, a[..], labels, next.value)
    ensures next.None? ==> |Components(t)| >= MAX_LABEL
    ensures cell in labels && (Walkable(t, cell) ==> labels[cell] != 0)
    ensures forall c :: c in before && before[c] != 0 ==> c in labels && labels[c] != 0
  {
    CellsExact(t);
    labels, next := before, Some(id);
    if a[IndexOf(t, cell)] != UNASSIGNED_COMPONENT || !Walkable(t, cell) {
      return;
    }
    labels := FloodFillComponent(t, a, before, cell, id);
    LabelledNext(t, before, labels, cell, id);
    FoundGrows(t, before, labels, cell, id);
    ConnectedRefl(t, cell);
    if id == MAX_LABEL {
      FoundWithin(t, labels, id + 1);
      next := None;
    } else {
      next := Some(id + 1);
    }
  }

  /** Every walkable cell before `(x, y)` in row order has its label. */
  ghost predicate Swept(t: Terrain, labels: Labels, x: int, y: int)
    requires ValidTerrain(t)
  {
    forall c :: c in labels && Walkable(t, c) && (c.y < y || (c.y == y && c.x < x)) ==> labels[c] != 0
  }

  lemma SweptNext(t: Terrain, before: Labels, labels: Labels, x: nat, y: nat)
    requires ValidTerrain(t) && Swept(t, before, x, y) && before.Keys == labels.Keys
    requires GridCell(x, y) in labels && (Walkable(t, GridCell(x, y)) ==> labels[GridCell(x, y)] != 0)
    requires forall c :: c in before && before[c] != 0 ==> c in labels && labels[c] != 0
    ensures Swept(t, labels, x + 1, y)
  {
    forall c | c in labels && c.y == y && c.x == x ensures c == GridCell(x, y) {
    }
  }

  lemma ProgressDone(t: Terrain, a: seq<Label>, labels: Labels, next: Label)
    requires ValidTerrain(t) && Progress(t, a, labels, next)
    requires forall c :: c in labels && Walkable(t, c) ==> labels[c] != 0
    ensures |Components(t)| == next - 1
  {
    assert Found(t, labels) == Components(t);
  }

  /** Builds the table, or fails as the source panics when the `u8` counter overflows: it completes
      exactly on maps of at most 254 components, and then the table is connectivity. */
  method BuildReachability(t: Terrain) returns (r: Option<ReachabilityGrid>)
    requires ValidTerrain(t)
    ensures r.Some? <==> |Components(t)| <= MAX_LABEL - 1
    ensures r.Some? ==> Exact(t, r.value)
  {
    CellsExact(t);
    var a := new Label[t.width * t.height](_ => 0);
    ghost var labels: Labels := map c | c in Cells(t) :: 0;
    var nextId: Label := 1;
    assert Found(t, labels) == {};
    for y := 0 to t.height
      invariant Progress(t, a[..], labels, nextId) && Swept(t, labels, 0, y)
    {
      for x := 0 to t.width
        invariant Progress(t, a[..], labels, nextId) && Swept(t, labels, x, y)
      {
        var next;
        ghost var before := labels;
        labels, next := VisitCell(t, a, labels, GridCell(x, y), nextId);
        if next.None? {
          return None;
        }
        nextId := next.value;
        SweptNext(t, before, labels, x, y);
      }
    }
    var grid := ReachabilityGrid(t.width, t.height, a[..]);
    ProgressDone(t, a[..], labels, nextId);
    LookupExact(t, grid, labels, nextId);
    return Some(grid);
  }

  // ----- maps with any number of components

  /** One row in which every second cell is blocked: `n` walkable cells, no two side by side. */
  function Striped(n: nat): (t: Terrain)
    requires n > 0
    ensures ValidTerrain(t)
  {
    Terrain(1.0, 2 * n - 1, 1, seq(2 * n - 1, i => TerrainFlags(i % 2 == 1, false, false, false)))
  }

  function Island(k: int): GridCell {
    GridCell(2 * k, 0)
  }

  lemma StripedCells(n: nat, c: GridCell)
    requires n > 0
    ensures Walkable(Striped(n), c) <==> c.y == 0 && 0 <= c.x < 2 * n - 1 && c.x % 2 == 0
  {
  }

  lemma StripedApart(n: nat, a: GridCell, b: GridCell)
    requires n > 0 && Connected(Striped(n), a, b)
    ensures a == b
  {
    var p :| WalkJoins(Striped(n), p, a, b);
    if |p| > 1 {
      assert Adjacent(p[0], p[0 + 1]);
      StripedCells(n, p[0]);
      StripedCells(n, p[1]);
      assert false;
    }
  }

  lemma IslandClass(n: nat, k: nat)
    requires k < n
    ensures Walkable(Striped(n), Island(k)) && Class(Striped(n), Island(k)) == {Island(k)}
  {
    var t := Striped(n);
    StripedCells(n, Island(k));
    CellsExact(t);
    ConnectedRefl(t, Island(k));
    forall d | d in Class(t, Island(k)) ensures d == Island(k) {
      StripedApart(n, Island(k), d);
    }
  }

  ghost function Islands(n: nat): set<set<GridCell>> {
    set k | 0 <= k < n :: {Island(k)}
  }

  lemma {:induction false} IslandsSize(n: nat)
    ensures |Islands(n)| == n
  {
    if n > 0 {
      IslandsSize(n - 1);
      var last := {Island(n - 1)};
      assert last !in Islands(n - 1) by {
        forall k | 0 <= k < n - 1 ensures {Island(k)} != last {
          assert Island(k) in {Island(k)} && Island(k) !in last;
        }
      }
      assert Islands(n) == Islands(n - 1) + {last};
    }
  }

  /** There is a map with any number of components, so the bound on them is met and broken: 254
      islands still build, 255 do not. */
  lemma StripedComponents(n: nat)
    requires n > 0
    ensures |Components(Striped(n))| == n
  {
    var t := Striped(n);
    IslandsSize(n);
    CellsExact(t);
    forall s | s in Components(t) ensures s in Islands(n) {
      var c :| c in Cells(t) && Walkable(t, c) && s == Class(t, c);
      StripedCells(n, c);
      assert c == Island(c.x / 2);
      IslandClass(n, c.x / 2);
    }
    forall s | s in Islands(n) ensures s in Components(t) {
      var k :| 0 <= k < n && s == {Island(k)};
      IslandClass(n, k);
      assert Island(k) in Cells(t);
    }
    assert Components(t) == Islands(n);
  }

  /** The 255-component map on which construction fails although a `u8` could hold 255 labels. */
  method LabelCounterExample() returns (most: Option<ReachabilityGrid>, tooMany: Option<ReachabilityGrid>)
    ensures most.Some? && Exact(Striped(254), most.value)
    ensures tooMany.None?
  {
    StripedComponents(254);
    StripedComponents(255);
    most := BuildReachability(Striped(254));
    tooMany := BuildReachability(Striped(255));
  }
}
