/** The directed visibility graph kept as two hash indexes. */
module Replication {
  type EntityId = nat
  type Index = map<EntityId, set<EntityId>>
  type Edge = (EntityId, EntityId)

  function Row(m: Index, k: EntityId): set<EntityId> {
    if k in m then m[k] else {}
  }

  predicate NoEmptyRows(m: Index) {
    forall k :: k in m ==> m[k] != {}
  }

  function AddToRow(m: Index, k: EntityId, v: EntityId): (r: Index)
    ensures NoEmptyRows(m) ==> NoEmptyRows(r)
    ensures forall j :: Row(r, j) == if j == k then Row(m, j) + {v} else Row(m, j)
  {
    m[k := Row(m, k) + {v}]
  }

  /** Drops the row when nothing is left in it. */
  function RemoveFromRow(m: Index, k: EntityId, v: EntityId): (r: Index)
    ensures NoEmptyRows(m) ==> NoEmptyRows(r)
    ensures forall j :: Row(r, j) == if j == k then Row(m, j) - {v} else Row(m, j)
  {
    if k !in m then m else if m[k] - {v} == {} then m - {k} else m[k := m[k] - {v}]
  }

  /** Every edge of the forward index is in the reverse one and the other way round. */
  ghost predicate Inverse(visible: Index, observers: Index) {
    forall o, t :: t in Row(visible, o) <==> o in Row(observers, t)
  }

  ghost function EdgesOf(visible: Index): set<Edge> {
    set o, t | o in visible && t in visible[o] :: (o, t)
  }

  lemma EdgeIn(visible: Index, o: EntityId, t: EntityId)
    ensures (o, t) in EdgesOf(visible) <==> t in Row(visible, o)
  {
  }

  // ----- the operations over plain edges

  datatype Op =
    | Reconcile(observer: EntityId, spawn: set<EntityId>, retain: set<EntityId>)
    | RemoveObserver(observer: EntityId)
    | RemoveTarget(target: EntityId)
    | RemoveVisibility(observer: EntityId, target: EntityId)

  /** What an operation reports to its caller. */
  datatype Event =
    | Diff(observer: EntityId, entered: set<EntityId>, left: set<EntityId>)
    | ObserverGone(observer: EntityId, targets: set<EntityId>)
    | TargetGone(target: EntityId, observers: set<EntityId>)
    | EdgeGone(observer: EntityId, target: EntityId, removed: bool)

  ghost function Targets(es: set<Edge>, o: EntityId): set<EntityId> {
    set e | e in es && e.0 == o :: e.1
  }

  ghost function Observers(es: set<Edge>, t: EntityId): set<EntityId> {
    set e | e in es && e.1 == t :: e.0
  }

  ghost function From(o: EntityId, ts: set<EntityId>): set<Edge> {
    set t | t in ts :: (o, t)
  }

  ghost function To(os: set<EntityId>, t: EntityId): set<Edge> {
    set o | o in os :: (o, t)
  }

  ghost function Reconciled(seen: set<EntityId>, spawn: set<EntityId>, retain: set<EntityId>): set<EntityId> {
    seen * retain + spawn
  }

  /** The graph after an operation. */
  ghost function After(es: set<Edge>, op: Op): set<Edge> {
    match op
    case Reconcile(o, spawn, retain) =>
      (set e | e in es && e.0 != o) + From(o, Reconciled(Targets(es, o), spawn, retain))
    case RemoveObserver(o) => set e | e in es && e.0 != o
    case RemoveTarget(t) => set e | e in es && e.1 != t
    case RemoveVisibility(o, t) => es - {(o, t)}
  }

  ghost function Report(es: set<Edge>, op: Op): Event {
    match op
    case Reconcile(o, spawn, retain) =>
      var was := Targets(es, o);
      var now := Reconciled(was, spawn, retain);
      Diff(o, now - was, was - now)
    case RemoveObserver(o) => ObserverGone(o, Targets(es, o))
    case RemoveTarget(t) => TargetGone(t, Observers(es, t))
    case RemoveVisibility(o, t) => EdgeGone(o, t, (o, t) in es)
  }

  // ----- the two indexes

  lemma RowReplaced(visible: Index, observers: Index, visible': Index, observers': Index, o: EntityId,
                    now: set<EntityId>)
    requires Inverse(visible, observers)
    requires forall k :: Row(visible', k) == if k == o then now else Row(visible, k)
    requires forall t :: Row(observers', t) ==
               if t in now - Row(visible, o) then Row(observers, t) + {o}
               else if t in Row(visible, o) - now then Row(observers, t) - {o} else Row(observers, t)
    ensures Inverse(visible', observers')
  {
    forall p, t ensures t in Row(visible', p) <==> p in Row(observers', t) {
      assert t in Row(visible, p) <==> p in Row(observers, t);
    }
  }

  /** The loop over `entered`. */
  method AddObserver(m: Index, keys: set<EntityId>, v: EntityId) returns (r: Index)
    ensures NoEmptyRows(m) ==> NoEmptyRows(r)
    ensures forall k :: Row(r, k) == if k in keys then Row(m, k) + {v} else Row(m, k)
  {
    r := m;
    var todo := keys;
    while todo != {}
      invariant todo <= keys && (NoEmptyRows(m) ==> NoEmptyRows(r))
      invariant forall k :: Row(r, k) == if k in keys - todo then Row(m, k) + {v} else Row(m, k)
      decreases todo
    {
      var k :| k in todo;
      r := AddToRow(r, k, v);
      todo := todo - {k};
    }
  }

  /** The loops over `left`, `targets` and `observers`. */
  method DropObserver(m: Index, keys: set<EntityId>, v: EntityId) returns (r: Index)
    ensures NoEmptyRows(m) ==> NoEmptyRows(r)
    ensures forall k :: Row(r, k) == if k in keys then Row(m, k) - {v} else Row(m, k)
  {
    r := m;
    var todo := keys;
    while todo != {}
      invariant todo <= keys && (NoEmptyRows(m) ==> NoEmptyRows(r))
      invariant forall k :: Row(r, k) == if k in keys - todo then Row(m, k) - {v} else Row(m, k)
      decreases todo
    {
      var k :| k in todo;
      r := RemoveFromRow(r, k, v);
      todo := todo - {k};
    }
  }

  lemma RowsAreTargets(visible: Index, o: EntityId)
    ensures Row(visible, o) == Targets(EdgesOf(visible), o)
  {
    forall t ensures t in Row(visible, o) <==> t in Targets(EdgesOf(visible), o) {
      EdgeIn(visible, o, t);
      assert t in Row(visible, o) ==> (o, t) in EdgesOf(visible) && (o, t).1 == t;
    }
  }

  lemma ColumnsAreObservers(visible: Index, observers: Index, t: EntityId)
    requires Inverse(visible, observers)
    ensures Row(observers, t) == Observers(EdgesOf(visible), t)
  {
    forall o ensures o in Row(observers, t) <==> o in Observers(EdgesOf(visible), t) {
      EdgeIn(visible, o, t);
      assert o in Row(observers, t) ==> (o, t) in EdgesOf(visible) && (o, t).0 == o;
    }
  }

  lemma EdgesWithRow(was: Index, now: Index, o: EntityId, row: set<EntityId>)
    requires forall k :: Row(now, k) == if k == o then row else Row(was, k)
    ensures EdgesOf(now) == (set e | e in EdgesOf(was) && e.0 != o) + From(o, row)
  {
    forall e: Edge ensures e in EdgesOf(now) <==> (e in EdgesOf(was) && e.0 != o) || e in From(o, row) {
      EdgeIn(now, e.0, e.1);
      EdgeIn(was, e.0, e.1);
    }
  }

  class ReplicationGraph {
    var visibleByObserver: Index
    var observersByTarget: Index

    ghost predicate Valid()
      reads this
    {
      && NoEmptyRows(visibleByObserver) && NoEmptyRows(observersByTarget)
      && Inverse(visibleByObserver, observersByTarget)
    }

    ghost function Edges(): set<Edge>
      reads this
    {
      EdgesOf(visibleByObserver)
    }

    constructor ()
      ensures Valid() && Edges() == {}
    {
      visibleByObserver, observersByTarget := map[], map[];
    }

    method ReconcileObserver(observer: EntityId, spawn: set<EntityId>, retain: set<EntityId>)
      returns (entered: set<EntityId>, left: set<EntityId>)
      requires Valid()
      modifies this
      ensures Valid()
      ensures Edges() == After(old(Edges()), Reconcile(observer, spawn, retain))
      ensures Diff(observer, entered, left) == Report(old(Edges()), Reconcile(observer, spawn, retain))
      ensures Row(visibleByObserver, observer) == old(Row(visibleByObserver, observer)) * retain + spawn
    {
      var was := Row(visibleByObserver, observer);
      var now := was * retain + spawn;
      entered, left := now - was, was - now;
      observersByTarget := AddObserver(observersByTarget, entered, observer);
      observersByTarget := DropObserver(observersByTarget, left, observer);
      if now == {} {
        visibleByObserver := visibleByObserver - {observer};
      } else {
        visibleByObserver := visibleByObserver[observer := now];
      }
      RowReplaced(old(visibleByObserver), old(observersByTarget), visibleByObserver, observersByTarget, observer, now);
      RowsAreTargets(old(visibleByObserver), observer);
      EdgesWithRow(old(visibleByObserver), visibleByObserver, observer, now);
    }

    method RemoveObserver(observer: EntityId) returns (targets: set<EntityId>)
      requires Valid()
      modifies this
      ensures Valid()
      ensures Edges() == After(old(Edges()), Op.RemoveObserver(observer))
      ensures ObserverGone(observer, targets) == Report(old(Edges()), Op.RemoveObserver(observer))
    {
      RowsAreTargets(visibleByObserver, observer);
      targets := Row(visibleByObserver, observer);
      visibleByObserver := visibleByObserver - {observer};
      observersByTarget := DropObserver(observersByTarget, targets, observer);
      EdgesWithRow(old(visibleByObserver), visibleByObserver, observer, {});
    }

    method RemoveTarget(target: EntityId) returns (observers: set<EntityId>)
      requires Valid()
      modifies this
      ensures Valid()
      ensures Edges() == After(old(Edges()), Op.RemoveTarget(target))
      ensures TargetGone(target, observers) == Report(old(Edges()), Op.RemoveTarget(target))
    {
      ColumnsAreObservers(visibleByObserver, observersByTarget, target);
      observers := Row(observersByTarget, target);
      observersByTarget := observersByTarget - {target};
      visibleByObserver := DropObserver(visibleByObserver, observers, target);
      forall o, t ensures t in Row(visibleByObserver, o) <==> o in Row(observersByTarget, t) {
        assert t in Row(old(visibleByObserver), o) <==> o in Row(old(observersByTarget), t);
        assert t != target ==> Row(observersByTarget, t) == Row(old(observersByTarget), t);
      }
      forall e ensures e in Edges() <==> e in old(Edges()) && e.1 != target {
        EdgeIn(visibleByObserver, e.0, e.1);
        EdgeIn(old(visibleByObserver), e.0, e.1);
      }
    }

    method RemoveVisibility(observer: EntityId, target: EntityId) returns (removed: bool)
      requires Valid()
      modifies this
      ensures Valid()
      ensures Edges() == After(old(Edges()), Op.RemoveVisibility(observer, target))
      ensures EdgeGone(observer, target, removed) == Report(old(Edges()), Op.RemoveVisibility(observer, target))
    {
      EdgeIn(visibleByObserver, observer, target);
      removed := target in Row(visibleByObserver, observer);
      visibleByObserver := RemoveFromRow(visibleByObserver, observer, target);
      if removed {
        observersByTarget := RemoveFromRow(observersByTarget, target, observer);
      }
      forall e ensures e in Edges() <==> e in old(Edges()) && e != (observer, target) {
        EdgeIn(visibleByObserver, e.0, e.1);
        EdgeIn(old(visibleByObserver), e.0, e.1);
      }
    }

    method IsVisible(observer: EntityId, target: EntityId) returns (r: bool)
      requires Valid()
      ensures r <==> (observer, target) in Edges()
      ensures r <==> observer in Row(observersByTarget, target)
    {
      EdgeIn(visibleByObserver, observer, target);
      r := target in Row(visibleByObserver, observer);
    }
  }

  // ----- runs

  /** How a receiver of the reports keeps its own picture of who sees whom. */
  ghost function Replay(view: set<Edge>, e: Event): set<Edge> {
    match e
    case Diff(o, entered, left) => view + From(o, entered) - From(o, left)
    case ObserverGone(o, targets) => view - From(o, targets)
    case TargetGone(t, observers) => view - To(observers, t)
    case EdgeGone(o, t, removed) => if removed then view - {(o, t)} else view
  }

  ghost function RunEdges(es: set<Edge>, ops: seq<Op>): set<Edge>
    decreases |ops|
  {
    if ops == [] then es else RunEdges(After(es, ops[0]), ops[1..])
  }

  ghost function ReplayRun(es: set<Edge>, view: set<Edge>, ops: seq<Op>): set<Edge>
    decreases |ops|
  {
    if ops == [] then view else ReplayRun(After(es, ops[0]), Replay(view, Report(es, ops[0])), ops[1..])
  }

  lemma ReportExact(es: set<Edge>, op: Op)
    ensures Replay(es, Report(es, op)) == After(es, op)
  {
    var view := Replay(es, Report(es, op));
    forall e: Edge ensures e in view <==> e in After(es, op) {
      assert e in es && op.Reconcile? && e.0 == op.observer ==> e.1 in Targets(es, op.observer);
      assert e in es && op.RemoveObserver? && e.0 == op.observer ==> e.1 in Targets(es, op.observer);
      assert e in es && op.RemoveTarget? && e.1 == op.target ==> e.0 in Observers(es, op.target);
    }
  }

  /** Over any run, replaying the reports rebuilds the graph. */
  lemma {:induction false} ReplayRebuilds(es: set<Edge>, ops: seq<Op>)
    ensures ReplayRun(es, es, ops) == RunEdges(es, ops)
    decreases |ops|
  {
    if ops != [] {
      ReportExact(es, ops[0]);
      ReplayRebuilds(After(es, ops[0]), ops[1..]);
    }
  }

  /** What a receiver that started from `view` holds after a list of reports. */
  ghost function ReplayAll(view: set<Edge>, events: seq<Event>): set<Edge> {
    if events == [] then view else Replay(ReplayAll(view, events[..|events| - 1]), events[|events| - 1])
  }

  method Apply(graph: ReplicationGraph, op: Op) returns (report: Event)
    requires graph.Valid()
    modifies graph
    ensures graph.Valid() && graph.Edges() == After(old(graph.Edges()), op) && report == Report(old(graph.Edges()), op)
  {
    match op {
      case Reconcile(observer, spawn, retain) =>
        var entered, left := graph.ReconcileObserver(observer, spawn, retain);
        report := Diff(observer, entered, left);
      case RemoveObserver(observer) =>
        var targets := graph.RemoveObserver(observer);
        report := ObserverGone(observer, targets);
      case RemoveTarget(target) =>
        var observers := graph.RemoveTarget(target);
        report := TargetGone(target, observers);
      case RemoveVisibility(observer, target) =>
        var removed := graph.RemoveVisibility(observer, target);
        report := EdgeGone(observer, target, removed);
    }
  }

  /** Any run of operations on the graph: whoever replays its reports from the edges it began with
      holds the graph's edges in the end. */
  method ApplyAll(graph: ReplicationGraph, ops: seq<Op>) returns (reports: seq<Event>)
    requires graph.Valid()
    modifies graph
    ensures graph.Valid() && graph.Edges() == RunEdges(old(graph.Edges()), ops)
    ensures |reports| == |ops| && ReplayAll(old(graph.Edges()), reports) == graph.Edges()
  {
    reports := [];
    assert ops[0..] == ops;
    for i := 0 to |ops|
      invariant graph.Valid() && |reports| == i
      invariant RunEdges(graph.Edges(), ops[i..]) == RunEdges(old(graph.Edges()), ops)
      invariant ReplayAll(old(graph.Edges()), reports) == graph.Edges()
    {
      ReportExact(graph.Edges(), ops[i]);
      assert ops[i..][1..] == ops[i + 1..];
      var report := Apply(graph, ops[i]);
      assert (reports + [report])[..i] == reports;
      reports := reports + [report];
    }
  }

  /** Entered targets were not visible and left ones were: no report repeats what is known. */
  lemma DiffsAreChanges(es: set<Edge>, o: EntityId, spawn: set<EntityId>, retain: set<EntityId>)
    ensures var d := Report(es, Reconcile(o, spawn, retain));
            && d.entered !! Targets(es, o) && d.left <= Targets(es, o)
            && Targets(After(es, Reconcile(o, spawn, retain)), o) == Targets(es, o) * retain + spawn
            && forall p :: p != o ==> Targets(After(es, Reconcile(o, spawn, retain)), p) == Targets(es, p)
  {
    var op := Reconcile(o, spawn, retain);
    var now := Reconciled(Targets(es, o), spawn, retain);
    forall p ensures Targets(After(es, op), p) == if p == o then now else Targets(es, p) {
      forall t ensures t in Targets(After(es, op), p) <==> t in (if p == o then now else Targets(es, p)) {
        assert (p, t) in After(es, op) <==> t in (if p == o then now else Targets(es, p)) by {
          assert (p, t) in es ==> t in Targets(es, p);
        }
        assert (p, t) in After(es, op) ==> t in Targets(After(es, op), p);
      }
    }
  }

  /** Which edges an operation leaves, edge by edge. */
  lemma EdgeAfter(es: set<Edge>, op: Op, o: EntityId, t: EntityId)
    ensures (o, t) in After(es, op) <==>
              match op
              case Reconcile(p, spawn, retain) =>
                if o == p then t in spawn || (t in retain && (o, t) in es) else (o, t) in es
              case RemoveObserver(p) => (o, t) in es && o != p
              case RemoveTarget(p) => (o, t) in es && t != p
              case RemoveVisibility(p, q) => (o, t) in es && (o != p || t != q)
  {
    assert (o, t) in es ==> t in Targets(es, o);
  }

  /** What a report says of an edge: new, gone, or there no longer. */
  lemma EdgeReported(es: set<Edge>, op: Op, o: EntityId, t: EntityId)
    ensures match Report(es, op)
            case Diff(p, entered, left) =>
              o == p ==> (t in entered <==> (o, t) in After(es, op) && (o, t) !in es)
                         && (t in left <==> (o, t) in es && (o, t) !in After(es, op))
            case ObserverGone(p, targets) => o == p ==> (t in targets <==> (o, t) in es)
            case TargetGone(p, observers) => t == p ==> (o in observers <==> (o, t) in es)
            case EdgeGone(p, q, removed) => o == p && t == q ==> (removed <==> (o, t) in es)
  {
    EdgeAfter(es, op, o, t);
    assert (o, t) in es ==> t in Targets(es, o) && o in Observers(es, t);
  }
}
