/** What becomes of each player's newest snapshot. */
module WorkerSaves {
  import opened Common
  import opened Database
  import opened Worker
  import opened WorkerSafety
  import opened WorkerReplies

  // ----- where a snapshot can be

  predicate LaneCarries(lane: Lane, id: nat) {
    (lane.save.Some? && lane.save.value.item.arrival == id) || (lane.exit.Some? && lane.exit.value.item.arrival == id)
  }

  ghost predicate InLane(s: Sys, p: PlayerId, id: nat) {
    p in s.lanes && LaneCarries(s.lanes[p], id)
  }

  ghost predicate InTask(running: seq<Task>, p: PlayerId, id: nat) {
    exists i :: 0 <= i < |running| && running[i].op.Player() == p && running[i].op.Arrival() == id
  }

  ghost predicate InWrites(ws: seq<Write>, id: nat) {
    exists k :: 0 <= k < |ws| && ws[k].item.arrival == id
  }

  ghost predicate InItems(items: seq<Item>, id: nat) {
    exists k :: 0 <= k < |items| && items[k].arrival == id
  }

  /** The snapshot has been written, or its row was found to have a newer owner. */
  ghost predicate Decided(s: Sys, id: nat) {
    InWrites(s.writes, id) || InItems(s.past.stale, id)
  }

  ghost predicate Tracked(s: Sys, p: PlayerId, id: nat) {
    InLane(s, p, id) || InTask(s.running, p, id) || Decided(s, id) || InItems(s.past.failed, id)
  }

  // ----- the invariant

  predicate IsLonely(reqs: seq<Request>, a: Accepted)
    requires a.id < |reqs|
  {
    reqs[a.id].SaveRequest? && reqs[a.id].urgency.Autosave? && !a.joined
  }

  /** The newest accepted request of a player is tracked, and later ones were refused saves. */
  ghost predicate NewestOk(s: Sys, p: PlayerId)
    requires p in s.past.accepted
  {
    var a := s.past.accepted[p];
    && a.id < |s.requests| && s.requests[a.id].snapshot.player == p && Tracked(s, p, a.id)
    && (forall j :: a.id < j < |s.requests| && s.requests[j].snapshot.player == p ==> s.requests[j].SaveRequest?)
  }

  /** An autosave that joined no flush travels as an autosave and is never given up. */
  ghost predicate LonelyOk(s: Sys, p: PlayerId)
    requires p in s.past.accepted && s.past.accepted[p].id < |s.requests|
  {
    var id := s.past.accepted[p].id;
    IsLonely(s.requests, s.past.accepted[p]) ==>
      && (p in s.lanes && s.lanes[p].save.Some? && s.lanes[p].save.value.item.arrival == id ==>
            s.lanes[p].save.value.urgency.Autosave?)
      && (forall i :: 0 <= i < |s.running| && s.running[i].op.Player() == p && s.running[i].op.Arrival() == id ==>
            s.running[i].op.IsAutosave())
      && !InItems(s.past.failed, id)
  }

  /** Nothing pending for a player is newer than its newest accepted request. */
  ghost predicate PendingOld(s: Sys, p: PlayerId)
    requires p in s.lanes
  {
    var lane := s.lanes[p];
    && (lane.save.Some? ==> p in s.past.accepted && lane.save.value.item.arrival <= s.past.accepted[p].id)
    && (lane.exit.Some? ==> p in s.past.accepted && lane.exit.value.item.arrival <= s.past.accepted[p].id)
  }

  /** A task's snapshot is no newer than the newest accepted one of its player, and a task that
      succeeded wrote it or found a newer owner. */
  ghost predicate TaskDecided(s: Sys, task: Task) {
    && task.op.Player() in s.past.accepted && task.op.Arrival() <= s.past.accepted[task.op.Player()].id
    && (task.result == Some(true) ==> Decided(s, task.op.Arrival()))
  }

  ghost predicate PastOk(s: Sys) {
    && (forall k :: 0 <= k < |s.past.stale| ==> ItemOk(s.requests, s.past.stale[k]))
    && (forall k :: 0 <= k < |s.past.failed| ==> ItemOk(s.requests, s.past.failed[k]))
    && (forall j :: 0 <= j < |s.requests| ==> s.requests[j].snapshot.player in s.past.accepted)
  }

  ghost predicate SavesOk(s: Sys) {
    && PastOk(s)
    && (forall p :: p in s.past.accepted ==> NewestOk(s, p) && LonelyOk(s, p))
    && (forall p :: p in s.lanes ==> PendingOld(s, p))
    && (forall i :: 0 <= i < |s.running| ==> TaskDecided(s, s.running[i]))
  }

  // ----- growth

  lemma WritesGrow(ws: seq<Write>, more: seq<Write>, id: nat)
    requires InWrites(ws, id) || InWrites(more, id)
    ensures InWrites(ws + more, id)
  {
    if InWrites(ws, id) {
      var k :| 0 <= k < |ws| && ws[k].item.arrival == id;
      assert (ws + more)[k].item.arrival == id;
    } else {
      var k :| 0 <= k < |more| && more[k].item.arrival == id;
      assert (ws + more)[|ws| + k].item.arrival == id;
    }
  }

  lemma ItemsGrow(items: seq<Item>, item: Item, id: nat)
    ensures InItems(items + [item], id) <==> InItems(items, id) || item.arrival == id
  {
    if InItems(items, id) {
      var k :| 0 <= k < |items| && items[k].arrival == id;
      assert (items + [item])[k].arrival == id;
    }
    if item.arrival == id {
      assert (items + [item])[|items|].arrival == id;
    }
    if InItems(items + [item], id) && item.arrival != id {
      var k :| 0 <= k < |items + [item]| && (items + [item])[k].arrival == id;
      assert items[k].arrival == id;
    }
  }

  // ----- receiving a request

  /** What a request does to the lane of its player, if it is not refused. */
  lemma ReceivedLane(lanes: Lanes, n: nat, req: Request)
    requires !IsRefused(lanes, req)
    ensures var lanes', p := HandleRequest(lanes, n, req).0, req.snapshot.player;
            && p in lanes' && LaneCarries(lanes'[p], n)
            && (lanes'[p].save.Some? ==> lanes'[p].save.value.item.arrival == n)
            && (lanes'[p].exit.Some? ==> lanes'[p].exit.value.item.arrival == n)
            && (req.SaveRequest? && req.urgency.Autosave? && !JoinsFlush(lanes, req) ==>
                  lanes'[p].save.Some? && lanes'[p].save.value.urgency.Autosave?)
            && (forall q :: q != p && q in lanes' ==> q in lanes && lanes'[q] == lanes[q])
            && (forall q :: q != p && q in lanes ==> q in lanes')
  {
  }

  lemma ReceiveNewest(s: Sys, req: Request, p: PlayerId)
    requires Enabled(s, Receive(req)) && p in Next(s, Receive(req)).past.accepted
    requires p in s.past.accepted ==> NewestOk(s, p)
    ensures NewestOk(Next(s, Receive(req)), p)
  {
    var s', n := Next(s, Receive(req)), |s.requests|;
    if !IsRefused(s.lanes, req) {
      ReceivedLane(s.lanes, n, req);
    }
    if p in s.past.accepted && s'.past.accepted[p] == s.past.accepted[p] {
      assert s'.requests[n] == req;
    } else {
      assert p == req.snapshot.player && InLane(s', p, n);
    }
  }

  lemma ReceiveLonely(s: Sys, req: Request, p: PlayerId)
    requires Enabled(s, Receive(req)) && p in Next(s, Receive(req)).past.accepted
    requires p in s.past.accepted ==> s.past.accepted[p].id < |s.requests| && LonelyOk(s, p)
    requires forall i :: 0 <= i < |s.running| ==> s.running[i].op.Arrival() < |s.requests|
    requires !InItems(s.past.failed, |s.requests|)
    ensures LonelyOk(Next(s, Receive(req)), p)
  {
    if !IsRefused(s.lanes, req) {
      ReceivedLane(s.lanes, |s.requests|, req);
    }
  }

  lemma ReceivePending(s: Sys, req: Request, p: PlayerId)
    requires Enabled(s, Receive(req)) && p in Next(s, Receive(req)).lanes
    requires p in s.lanes ==> PendingOld(s, p)
    ensures PendingOld(Next(s, Receive(req)), p)
  {
    if !IsRefused(s.lanes, req) {
      ReceivedLane(s.lanes, |s.requests|, req);
    }
  }

  lemma ReceivePast(s: Sys, req: Request)
    requires PastOk(s) && Enabled(s, Receive(req))
    requires IsRefused(s.lanes, req) ==> req.snapshot.player in s.past.accepted
    ensures PastOk(Next(s, Receive(req)))
  {
    var s' := Next(s, Receive(req));
    forall k | 0 <= k < |s'.past.stale| ensures ItemOk(s'.requests, s'.past.stale[k]) {
      assert ItemOk(s.requests, s.past.stale[k]);
    }
    forall k | 0 <= k < |s'.past.failed| ensures ItemOk(s'.requests, s'.past.failed[k]) {
      assert ItemOk(s.requests, s.past.failed[k]);
    }
  }

  lemma ReceiveTaskDecided(s: Sys, req: Request, task: Task)
    requires Enabled(s, Receive(req)) && TaskDecided(s, task) && NewestOk(s, task.op.Player())
    ensures TaskDecided(Next(s, Receive(req)), task)
  {
  }

  lemma ReceiveSaves(s: Sys, req: Request)
    requires Inv(s) && SavesOk(s) && Enabled(s, Receive(req))
    ensures SavesOk(Next(s, Receive(req)))
  {
    var s', n := Next(s, Receive(req)), |s.requests|;
    forall i | 0 <= i < |s.running| ensures s.running[i].op.Arrival() < n && TaskDecided(s', s.running[i]) {
      assert TaskOk(s, s.running[i]);
      ReceiveTaskDecided(s, req, s.running[i]);
    }
    assert !InItems(s.past.failed, n);
    forall p | p in s'.past.accepted ensures NewestOk(s', p) && LonelyOk(s', p) {
      ReceiveNewest(s, req, p);
      ReceiveLonely(s, req, p);
    }
    forall p | p in s'.lanes ensures PendingOld(s', p) {
      ReceivePending(s, req, p);
    }
    assert IsRefused(s.lanes, req) ==> PendingOld(s, req.snapshot.player);
    ReceivePast(s, req);
  }

  // ----- dispatching

  lemma DispatchOneTracked(s: Sys, p: PlayerId, q: PlayerId, id: nat)
    requires Core(s) && CanDispatch(s, p) && Tracked(s, q, id)
    ensures Tracked(DispatchOne(s, p), q, id)
  {
    var s' := DispatchOne(s, p);
    assert LaneOk(s.requests, s.dispatched, p, s.lanes[p]);
    if InTask(s.running, q, id) {
      var i :| 0 <= i < |s.running| && s.running[i].op.Player() == q && s.running[i].op.Arrival() == id;
      assert s'.running[i].op.Arrival() == id && s'.running[i].op.Player() == q;
    } else if InLane(s, q, id) && q == p {
      assert s'.running[|s.running|].op.Arrival() == id && s'.running[|s.running|].op.Player() == q;
    }
  }

  lemma DispatchOneLonely(s: Sys, p: PlayerId, q: PlayerId)
    requires Core(s) && SavesOk(s) && CanDispatch(s, p) && q in s.past.accepted
    ensures LonelyOk(DispatchOne(s, p), q)
  {
    var s' := DispatchOne(s, p);
    assert NewestOk(s, q) && LonelyOk(s, q) && LaneOk(s.requests, s.dispatched, p, s.lanes[p]);
    if IsLonely(s.requests, s.past.accepted[q]) {
      var id := s.past.accepted[q].id;
      forall i | 0 <= i < |s'.running| && s'.running[i].op.Player() == q && s'.running[i].op.Arrival() == id
        ensures s'.running[i].op.IsAutosave()
      {
        if i < |s.running| {
          assert s'.running[i] == s.running[i];
        }
      }
    }
  }

  lemma DispatchOneDecided(s: Sys, p: PlayerId, i: nat)
    requires CanDispatch(s, p) && PendingOld(s, p) && i <= |s.running|
    requires LaneOk(s.requests, s.dispatched, p, s.lanes[p])
    requires i < |s.running| ==> TaskDecided(s, s.running[i])
    ensures TaskDecided(DispatchOne(s, p), DispatchOne(s, p).running[i])
  {
  }

  lemma DispatchOneNewest(s: Sys, p: PlayerId, q: PlayerId)
    requires Core(s) && SavesOk(s) && CanDispatch(s, p) && q in s.past.accepted
    ensures NewestOk(DispatchOne(s, p), q) && LonelyOk(DispatchOne(s, p), q)
  {
    assert NewestOk(s, q);
    DispatchOneTracked(s, p, q, s.past.accepted[q].id);
    DispatchOneLonely(s, p, q);
  }

  lemma DispatchOneSaves(s: Sys, p: PlayerId)
    requires Core(s) && SavesOk(s) && CanDispatch(s, p)
    ensures SavesOk(DispatchOne(s, p))
  {
    var s' := DispatchOne(s, p);
    assert LaneOk(s.requests, s.dispatched, p, s.lanes[p]);
    forall q | q in s'.past.accepted ensures NewestOk(s', q) && LonelyOk(s', q) {
      DispatchOneNewest(s, p, q);
    }
    forall q | q in s'.lanes ensures PendingOld(s', q) {
      assert PendingOld(s, q);
    }
    forall i | 0 <= i < |s'.running| ensures TaskDecided(s', s'.running[i]) {
      DispatchOneDecided(s, p, i);
    }
  }

  lemma {:induction false} DispatchAllSaves(s: Sys, order: seq<PlayerId>)
    requires Core(s) && SavesOk(s) && Planned(s, order)
    ensures SavesOk(DispatchAll(s, order))
    decreases |order|
  {
    if order != [] && |s.running| < MAX_CONCURRENT_SAVES {
      assert CanDispatch(s, order[0]);
      DispatchOneSaves(s, order[0]);
      DispatchOneKeeps(s, order[0]);
      PlannedNext(s, order);
      DispatchAllSaves(DispatchOne(s, order[0]), order[1..]);
    }
  }

  // ----- a statement running

  /** A statement that succeeds has written, or found a newer owner. */
  lemma SuccessDecides(db: Tables, now: int, op: Op, fault: Fault)
    requires ResultOf(op, Exec(db, now, Statement(op)).1, fault)
    ensures fault.Clean?
    ensures var outcome := Exec(db, now, Statement(op)).1;
            (WriteOf(db, op).Some? && WriteOf(db, op).value.item == op.TheItem()) || outcome.StaleOwner?
  {
  }

  /** What a statement adds to the logs. */
  lemma ExecuteGrows(s: Sys, i: nat, now: int, fault: Fault, id: nat)
    requires Enabled(s, Execute(i, now, fault))
    ensures var s' := Next(s, Execute(i, now, fault));
            && (Decided(s, id) ==> Decided(s', id)) && s'.past.failed == s.past.failed
            && (s'.running[i].result == Some(true) && s.running[i].op.Arrival() == id ==> Decided(s', id))
  {
    var s', op := Next(s, Execute(i, now, fault)), s.running[i].op;
    var item := op.TheItem();
    var more := if s'.writes == s.writes then [] else [s'.writes[|s.writes|]];
    assert s'.writes == s.writes + more;
    if InWrites(s.writes, id) {
      WritesGrow(s.writes, more, id);
    }
    ItemsGrow(s.past.stale, item, id);
    if s'.running[i].result == Some(true) && op.Arrival() == id {
      SuccessDecides(s.db, now, op, fault);
      if WriteOf(s.db, op).Some? {
        assert s'.writes[|s.writes|].item.arrival == id;
      }
    }
  }

  lemma SameTasks(running: seq<Task>, running': seq<Task>, p: PlayerId, id: nat)
    requires |running'| == |running| && forall j :: 0 <= j < |running| ==> running'[j].op == running[j].op
    requires InTask(running, p, id)
    ensures InTask(running', p, id)
  {
    var j :| 0 <= j < |running| && running[j].op.Player() == p && running[j].op.Arrival() == id;
    assert running'[j].op.Player() == p && running'[j].op.Arrival() == id;
  }

  lemma ExecuteNewest(s: Sys, i: nat, now: int, fault: Fault, p: PlayerId)
    requires Enabled(s, Execute(i, now, fault)) && p in s.past.accepted && NewestOk(s, p) && LonelyOk(s, p)
    ensures var s' := Next(s, Execute(i, now, fault));
            p in s'.past.accepted && NewestOk(s', p) && LonelyOk(s', p)
  {
    var s', id := Next(s, Execute(i, now, fault)), s.past.accepted[p].id;
    ExecuteGrows(s, i, now, fault, id);
    assert forall j :: 0 <= j < |s.running| ==> s'.running[j].op == s.running[j].op;
    if InTask(s.running, p, id) {
      SameTasks(s.running, s'.running, p, id);
    }
  }

  lemma ExecutePast(s: Sys, i: nat, now: int, fault: Fault)
    requires PastOk(s) && Enabled(s, Execute(i, now, fault)) && ItemOk(s.requests, s.running[i].op.TheItem())
    ensures PastOk(Next(s, Execute(i, now, fault)))
  {
  }

  lemma ExecuteTaskDecided(s: Sys, i: nat, now: int, fault: Fault, j: nat)
    requires Enabled(s, Execute(i, now, fault)) && j < |s.running| && TaskDecided(s, s.running[j])
    ensures TaskDecided(Next(s, Execute(i, now, fault)), Next(s, Execute(i, now, fault)).running[j])
  {
    ExecuteGrows(s, i, now, fault, s.running[j].op.Arrival());
  }

  lemma ExecuteSaves(s: Sys, i: nat, now: int, fault: Fault)
    requires Inv(s) && SavesOk(s) && Enabled(s, Execute(i, now, fault))
    ensures SavesOk(Next(s, Execute(i, now, fault)))
  {
    var s' := Next(s, Execute(i, now, fault));
    assert TaskOk(s, s.running[i]);
    ExecutePast(s, i, now, fault);
    forall p | p in s'.past.accepted ensures NewestOk(s', p) && LonelyOk(s', p) {
      ExecuteNewest(s, i, now, fault, p);
    }
    forall p | p in s'.lanes ensures PendingOld(s', p) {
      assert PendingOld(s, p);
    }
    forall j | 0 <= j < |s'.running| ensures TaskDecided(s', s'.running[j]) {
      ExecuteTaskDecided(s, i, now, fault, j);
    }
  }

  // ----- a task completing

  /** What a completion does to the lanes. */
  lemma CompletedLane(lanes: Lanes, op: Op, ok: bool, now: int, p: PlayerId, id: nat)
    requires op.Player() in lanes
    ensures var lanes' := HandleCompleted(lanes, op, ok, now).0;
            && (p in lanes && LaneCarries(lanes[p], id) ==> p in lanes' && LaneCarries(lanes'[p], id))
            && (op.IsAutosave() && !ok && lanes[op.Player()].exit.None? && lanes[op.Player()].save.None? ==>
                  op.Player() in lanes' && LaneCarries(lanes'[op.Player()], op.Arrival()))
  {
  }

  /** The lane after a completion holds nothing it did not hold, but for the autosave to be retried. */
  lemma CompletedPending(lanes: Lanes, op: Op, ok: bool, now: int, p: PlayerId)
    requires op.Player() in lanes && p in HandleCompleted(lanes, op, ok, now).0
    ensures var lane' := HandleCompleted(lanes, op, ok, now).0[p];
            && p in lanes && lane'.exit == lanes[p].exit
            && (lane'.save == lanes[p].save || (p == op.Player() && op.IsAutosave() && lane'.save == Some(op.save)))
  {
  }

  lemma InTaskLeft(running: seq<Task>, i: nat, p: PlayerId, id: nat)
    requires i < |running| && InTask(running, p, id)
    ensures (running[i].op.Player() == p && running[i].op.Arrival() == id)
        || InTask(running[..i] + running[i + 1..], p, id)
  {
    var j :| 0 <= j < |running| && running[j].op.Player() == p && running[j].op.Arrival() == id;
    RemovedAt(running, i);
    if j != i {
      var k := if j < i then j else j - 1;
      assert (running[..i] + running[i + 1..])[k].op.Player() == p
          && (running[..i] + running[i + 1..])[k].op.Arrival() == id;
    }
  }

  /** The snapshot of the completing task: decided, given up, back in its lane, or behind a newer one. */
  lemma JoinedItem(s: Sys, i: nat, now: int)
    requires Enabled(s, Join(i, now)) && TaskOk(s, s.running[i]) && TaskDecided(s, s.running[i])
    requires var p := s.running[i].op.Player();
             LaneOk(s.requests, s.dispatched, p, s.lanes[p]) && PendingOld(s, p)
             && s.past.accepted[p].id == s.running[i].op.Arrival()
    ensures Tracked(Next(s, Join(i, now)), s.running[i].op.Player(), s.running[i].op.Arrival())
  {
    var s', task := Next(s, Join(i, now)), s.running[i];
    var op := task.op;
    var p, id := op.Player(), op.Arrival();
    CompletedLane(s.lanes, op, task.result.value, now, p, id);
    if task.result == Some(false) {
      if !op.IsAutosave() {
        ItemsGrow(s.past.failed, op.TheItem(), id);
      } else if s.lanes[p].exit.Some? || s.lanes[p].save.Some? {
        assert LaneCarries(s.lanes[p], id);
      }
    }
  }

  lemma OtherTracked(s: Sys, i: nat, now: int, p: PlayerId, id: nat)
    requires Enabled(s, Join(i, now)) && Tracked(s, p, id) && s.running[i].op.Player() in s.lanes
    requires !(s.running[i].op.Player() == p && s.running[i].op.Arrival() == id)
    ensures Tracked(Next(s, Join(i, now)), p, id)
  {
    CompletedLane(s.lanes, s.running[i].op, s.running[i].result.value, now, p, id);
    ItemsGrow(s.past.failed, s.running[i].op.TheItem(), id);
    if InTask(s.running, p, id) {
      InTaskLeft(s.running, i, p, id);
    }
  }

  lemma JoinTracked(s: Sys, i: nat, now: int, p: PlayerId)
    requires Inv(s) && SavesOk(s) && Enabled(s, Join(i, now)) && p in s.past.accepted
    ensures Tracked(Next(s, Join(i, now)), p, s.past.accepted[p].id)
  {
    var op, id := s.running[i].op, s.past.accepted[p].id;
    assert NewestOk(s, p) && TaskOk(s, s.running[i]) && TaskDecided(s, s.running[i]);
    if op.Player() == p && op.Arrival() == id {
      JoinedItem(s, i, now);
    } else {
      OtherTracked(s, i, now, p, id);
    }
  }

  lemma JoinLonely(s: Sys, i: nat, now: int, p: PlayerId)
    requires Enabled(s, Join(i, now)) && s.running[i].op.Player() in s.lanes && p in s.past.accepted
    requires s.past.accepted[p].id < |s.requests| && s.requests[s.past.accepted[p].id].snapshot.player == p
    requires LonelyOk(s, p) && ItemOk(s.requests, s.running[i].op.TheItem())
    ensures LonelyOk(Next(s, Join(i, now)), p)
  {
    var s', op, id := Next(s, Join(i, now)), s.running[i].op, s.past.accepted[p].id;
    ItemsGrow(s.past.failed, op.TheItem(), id);
    RemovedAt(s.running, i);
    if p in s'.lanes {
      CompletedPending(s.lanes, op, s.running[i].result.value, now, p);
    }
  }

  lemma JoinPending(s: Sys, i: nat, now: int, p: PlayerId)
    requires Enabled(s, Join(i, now)) && p in Next(s, Join(i, now)).lanes
    requires s.running[i].op.Player() in s.lanes && TaskDecided(s, s.running[i]) && (p in s.lanes ==> PendingOld(s, p))
    ensures PendingOld(Next(s, Join(i, now)), p)
  {
    CompletedPending(s.lanes, s.running[i].op, s.running[i].result.value, now, p);
  }

  lemma JoinPast(s: Sys, i: nat, now: int)
    requires PastOk(s) && Enabled(s, Join(i, now)) && ItemOk(s.requests, s.running[i].op.TheItem())
    ensures PastOk(Next(s, Join(i, now)))
  {
  }

  lemma JoinTaskDecided(s: Sys, i: nat, now: int, j: nat)
    requires Enabled(s, Join(i, now)) && j < |s.running| && TaskDecided(s, s.running[j])
    ensures TaskDecided(Next(s, Join(i, now)), s.running[j])
  {
  }

  lemma JoinNewest(s: Sys, i: nat, now: int, p: PlayerId)
    requires Inv(s) && SavesOk(s) && Enabled(s, Join(i, now)) && p in s.past.accepted
    ensures NewestOk(Next(s, Join(i, now)), p) && LonelyOk(Next(s, Join(i, now)), p)
  {
    assert NewestOk(s, p) && LonelyOk(s, p) && TaskOk(s, s.running[i]);
    JoinTracked(s, i, now, p);
    JoinLonely(s, i, now, p);
  }

  lemma JoinTasksDecided(s: Sys, i: nat, now: int, j: nat)
    requires Enabled(s, Join(i, now)) && j < |Next(s, Join(i, now)).running|
    requires forall k :: 0 <= k < |s.running| ==> TaskDecided(s, s.running[k])
    ensures TaskDecided(Next(s, Join(i, now)), Next(s, Join(i, now)).running[j])
  {
    RemovedAt(s.running, i);
    JoinTaskDecided(s, i, now, if j < i then j else j + 1);
  }

  lemma JoinSaves(s: Sys, i: nat, now: int)
    requires Inv(s) && SavesOk(s) && Enabled(s, Join(i, now))
    ensures SavesOk(Next(s, Join(i, now)))
  {
    var s' := Next(s, Join(i, now));
    assert TaskOk(s, s.running[i]);
    JoinPast(s, i, now);
    forall p | p in s'.past.accepted ensures NewestOk(s', p) && LonelyOk(s', p) {
      JoinNewest(s, i, now, p);
    }
    forall p | p in s'.lanes ensures PendingOld(s', p) {
      JoinPending(s, i, now, p);
    }
    forall j | 0 <= j < |s'.running| ensures TaskDecided(s', s'.running[j]) {
      JoinTasksDecided(s, i, now, j);
    }
  }

  // ----- every run

  lemma QuietSaves(s: Sys, s': Sys)
    requires SavesOk(s) && s' == s.(pc := s'.pc, db := s'.db, closed := s'.closed)
    ensures SavesOk(s')
  {
    forall p | p in s'.past.accepted ensures NewestOk(s', p) && LonelyOk(s', p) {
      assert NewestOk(s, p) && LonelyOk(s, p);
    }
    forall p | p in s'.lanes ensures PendingOld(s', p) {
      assert PendingOld(s, p);
    }
    forall i | 0 <= i < |s'.running| ensures TaskDecided(s', s'.running[i]) {
      assert TaskDecided(s, s.running[i]);
    }
  }

  lemma DispatchSaves(s: Sys, now: int, order: seq<PlayerId>, deadline: Option<int>)
    requires Inv(s) && SavesOk(s) && Enabled(s, Dispatch(now, order, deadline))
    ensures SavesOk(Next(s, Dispatch(now, order, deadline)))
  {
    ReadyIsPlanned(s, now, order);
    DispatchAllSaves(s, order);
    QuietSaves(DispatchAll(s, order), Next(s, Dispatch(now, order, deadline)));
  }

  lemma NextSaves(s: Sys, step: Step)
    requires Inv(s) && SavesOk(s) && Enabled(s, step)
    ensures SavesOk(Next(s, step))
  {
    match step {
      case Dispatch(now, order, deadline) => DispatchSaves(s, now, order, deadline);
      case Receive(req) => ReceiveSaves(s, req);
      case Join(i, now) => JoinSaves(s, i, now);
      case Execute(i, now, fault) => ExecuteSaves(s, i, now, fault);
      case _ => QuietSaves(s, Next(s, step));
    }
  }

  /** All the worker keeps. */
  ghost predicate WorkerOk(s: Sys) {
    Inv(s) && Once(s) && Accounted(s) && SavesOk(s)
  }

  lemma InitialOk(db: Tables)
    ensures WorkerOk(Initial(db))
  {
  }

  lemma NextOk(s: Sys, step: Step)
    requires WorkerOk(s) && Enabled(s, step)
    ensures WorkerOk(Next(s, step))
  {
    NextKeeps(s, step);
    NextOnce(s, step);
    NextAccounted(s, step);
    NextSaves(s, step);
  }

  lemma {:induction false} RunSaves(s: Sys, steps: seq<Step>, t: Sys)
    requires Inv(s) && SavesOk(s) && Runs(s, steps, t)
    ensures Inv(t) && SavesOk(t)
    decreases |steps|
  {
    if steps != [] {
      NextSaves(s, steps[0]);
      NextKeeps(s, steps[0]);
      RunSaves(Next(s, steps[0]), steps[1..], t);
    }
  }

  ghost predicate PendingItem(s: Sys, p: PlayerId, item: Item) {
    && p in s.lanes
    && ((s.lanes[p].save.Some? && s.lanes[p].save.value.item == item)
        || (s.lanes[p].exit.Some? && s.lanes[p].exit.value.item == item))
  }

  ghost predicate TaskItem(running: seq<Task>, item: Item) {
    exists i :: 0 <= i < |running| && running[i].op.TheItem() == item
  }

  ghost predicate WrittenItem(ws: seq<Write>, item: Item) {
    exists k :: 0 <= k < |ws| && ws[k].item == item
  }

  lemma ItemFound(items: seq<Item>, reqs: seq<Request>, id: nat)
    requires id < |reqs| && forall k :: 0 <= k < |items| ==> ItemOk(reqs, items[k])
    ensures InItems(items, id) <==> Item(reqs[id].snapshot, id) in items
  {
  }

  lemma TrackedItem(s: Sys, p: PlayerId, id: nat)
    requires Inv(s) && PastOk(s) && id < |s.requests| && Tracked(s, p, id)
    ensures var item := Item(s.requests[id].snapshot, id);
            || PendingItem(s, p, item) || TaskItem(s.running, item) || WrittenItem(s.writes, item)
            || item in s.past.stale || item in s.past.failed
  {
    ItemFound(s.past.stale, s.requests, id);
    ItemFound(s.past.failed, s.requests, id);
    if InLane(s, p, id) {
      assert LaneOk(s.requests, s.dispatched, p, s.lanes[p]);
    } else if InTask(s.running, p, id) {
      var i :| 0 <= i < |s.running| && s.running[i].op.Player() == p && s.running[i].op.Arrival() == id;
      assert TaskOk(s, s.running[i]);
    } else if InWrites(s.writes, id) {
      var k :| 0 <= k < |s.writes| && s.writes[k].item.arrival == id;
      assert WriteOk(s, s.writes[k]);
    }
  }

  /** In every run, for each player that ever sent a request: the snapshot of its newest accepted one is
      in its lane, with a task, written, found to have a newer owner, or given up with a flush or exit
      that failed; and an autosave that found no flush pending is never given up.  Requests after it
      were saves refused because of a pending exit. */
  lemma NewestTracked(db: Tables, steps: seq<Step>, t: Sys, j: nat)
    requires Runs(Initial(db), steps, t) && j < |t.requests|
    ensures t.requests[j].snapshot.player in t.past.accepted
    ensures var p := t.requests[j].snapshot.player;
            var id := t.past.accepted[p].id;
            && id < |t.requests| && t.requests[id].snapshot.player == p && (j > id ==> t.requests[j].SaveRequest?)
            && var item := Item(t.requests[id].snapshot, id);
               && (PendingItem(t, p, item) || TaskItem(t.running, item) || WrittenItem(t.writes, item)
                   || item in t.past.stale || item in t.past.failed)
               && (t.requests[id].SaveRequest? && t.requests[id].urgency.Autosave? && !t.past.accepted[p].joined ==>
                     item !in t.past.failed)
               && (t.pc.Returned? ==> WrittenItem(t.writes, item) || item in t.past.stale || item in t.past.failed)
  {
    InitialOk(db);
    RunSaves(Initial(db), steps, t);
    var p := t.requests[j].snapshot.player;
    assert NewestOk(t, p) && LonelyOk(t, p);
    TrackedItem(t, p, t.past.accepted[p].id);
    ItemFound(t.past.failed, t.requests, t.past.accepted[p].id);
  }

  // ----- an autosave lost with a flush

  function Quiet(pc: Pc, lanes: Lanes, running: seq<Task>, reqs: seq<Request>, ds: seq<Op>, past: Past): Sys {
    Sys(Tables(map[], map[]), pc, false, lanes, running, reqs, ds, [], [], past)
  }

  lemma NothingReady(s: Sys)
    requires s.pc.Top? && !s.closed && forall p :: p in s.lanes ==> s.lanes[p].inFlight
    ensures Enabled(s, Dispatch(0, [], None)) && Next(s, Dispatch(0, [], None)) == s.(pc := Waiting(None))
  {
  }

  lemma OneReady(s: Sys, p: PlayerId, save: PendingSave)
    requires s.pc.Top? && !s.closed && s.running == [] && s.lanes == map[p := Lane(false, Some(save), None, None)]
    ensures Enabled(s, Dispatch(0, [p], None))
    ensures Next(s, Dispatch(0, [p], None)) ==
              s.(pc := Waiting(None), lanes := map[p := Lane(true, None, None, None)],
                 running := [Task(SaveOp(save), None)], dispatched := s.dispatched + [SaveOp(save)])
  {
    assert DispatchAll(s, [p]) == DispatchOne(s, p) by {
      assert [p][1..] == [];
    }
  }

  const FIRST := Snapshot(1, 0, World("map", 0.0, 0.0, None, None, None), 1, Progress(1, 0, 3, 3, 3, 3, 0))
  const FLUSHED := FIRST.(playtime := 2)
  const NEWEST := FIRST.(playtime := 3)

  function SaveOf(snapshot: Snapshot, arrival: nat, urgency: Urgency): PendingSave {
    PendingSave(Item(snapshot, arrival), urgency, None)
  }

  function Asked(): seq<Request> {
    [SaveRequest(FIRST, Autosave, false), SaveRequest(FLUSHED, FlushNow, false), SaveRequest(NEWEST, Autosave, false)]
  }

  lemma Grow(s: Sys, steps: seq<Step>, t: Sys, step: Step, t': Sys) returns (more: seq<Step>)
    requires Runs(s, steps, t) && Enabled(t, step) && t' == Next(t, step)
    ensures Runs(s, more, t')
  {
    RunsSnoc(s, steps, t, step);
    more := steps + [step];
  }

  function FirstOp(): Op {
    SaveOp(SaveOf(FIRST, 0, Autosave))
  }

  function JoinedSave(): PendingSave {
    SaveOf(NEWEST, 2, FlushNow)
  }

  /** The first autosave is in flight. */
  function Busy(): Sys {
    Quiet(Waiting(None), map[1 := Lane(true, None, None, None)], [Task(FirstOp(), None)], Asked()[..1], [FirstOp()],
          Past(map[1 := Accepted(0, false)], [], []))
  }

  /** A flush waits behind it. */
  function FlushQueued(): Sys {
    Quiet(Waiting(None), map[1 := Lane(true, Some(SaveOf(FLUSHED, 1, FlushNow)), None, None)],
          [Task(FirstOp(), None)], Asked()[..2], [FirstOp()], Past(map[1 := Accepted(1, false)], [], []))
  }

  /** The newest autosave has joined the flush that was queued behind it. */
  function Joined(): Sys {
    Quiet(Waiting(None), map[1 := Lane(true, Some(JoinedSave()), None, None)], [Task(FirstOp(), None)], Asked(),
          [FirstOp()], Past(map[1 := Accepted(2, true)], [], []))
  }

  /** The first autosave has failed and gives way to the flush. */
  function GaveWay(): Sys {
    Joined().(pc := Top, running := [], lanes := map[1 := Lane(false, Some(JoinedSave()), None, None)])
  }

  lemma GetBusy() returns (steps: seq<Step>)
    ensures Runs(Initial(Tables(map[], map[])), steps, Busy())
  {
    var s0, r := Initial(Tables(map[], map[])), Asked()[0];
    NothingReady(s0);
    steps := Grow(s0, [], s0, Dispatch(0, [], None), s0.(pc := Waiting(None)));
    var first := SaveOf(FIRST, 0, Autosave);
    var s1 := Quiet(Top, map[1 := Lane(false, Some(first), None, None)], [], [r], [],
                    Past(map[1 := Accepted(0, false)], [], []));
    steps := Grow(s0, steps, s0.(pc := Waiting(None)), Receive(r), s1);
    OneReady(s1, 1, first);
    assert Asked()[..1] == [r];
    steps := Grow(s0, steps, s1, Dispatch(0, [1], None), Busy());
  }

  lemma QueueFlush(s0: Sys, sofar: seq<Step>) returns (steps: seq<Step>)
    requires Runs(s0, sofar, Busy())
    ensures Runs(s0, steps, FlushQueued())
  {
    var s3 := FlushQueued().(pc := Top);
    assert Next(Busy(), Receive(Asked()[1])) == s3;
    steps := Grow(s0, sofar, Busy(), Receive(Asked()[1]), s3);
    NothingReady(s3);
    steps := Grow(s0, steps, s3, Dispatch(0, [], None), FlushQueued());
  }

  lemma JoinFlush(s0: Sys, sofar: seq<Step>) returns (steps: seq<Step>)
    requires Runs(s0, sofar, FlushQueued())
    ensures Runs(s0, steps, Joined())
  {
    var s4 := Joined().(pc := Top);
    assert Next(FlushQueued(), Receive(Asked()[2])) == s4;
    steps := Grow(s0, sofar, FlushQueued(), Receive(Asked()[2]), s4);
    NothingReady(s4);
    steps := Grow(s0, steps, s4, Dispatch(0, [], None), Joined());
  }

  lemma GiveWay(s0: Sys, sofar: seq<Step>) returns (steps: seq<Step>)
    requires Runs(s0, sofar, Joined())
    ensures Runs(s0, steps, GaveWay())
  {
    var s6 := Joined().(running := [Task(FirstOp(), Some(false))]);
    steps := Grow(s0, sofar, Joined(), Execute(0, 0, LostBefore), s6);
    steps := Grow(s0, steps, s6, Join(0, 0), GaveWay());
  }

  /** The flush is in flight, with the newest autosave's snapshot. */
  function FlushSent(): Sys {
    Quiet(Waiting(None), map[1 := Lane(true, None, None, None)], [Task(SaveOp(JoinedSave()), None)], Asked(),
          [FirstOp(), SaveOp(JoinedSave())], Past(map[1 := Accepted(2, true)], [], []))
  }

  lemma SendFlush(s0: Sys, sofar: seq<Step>) returns (steps: seq<Step>)
    requires Runs(s0, sofar, GaveWay())
    ensures Runs(s0, steps, FlushSent())
  {
    OneReady(GaveWay(), 1, JoinedSave());
    steps := Grow(s0, sofar, GaveWay(), Dispatch(0, [1], None), FlushSent());
  }

  lemma LoseFlush(s0: Sys, sofar: seq<Step>) returns (steps: seq<Step>)
    requires Runs(s0, sofar, FlushSent())
    ensures Runs(s0, steps, Quiet(Top, map[], [], Asked(), [FirstOp(), SaveOp(JoinedSave())],
                                  Past(map[1 := Accepted(2, true)], [], [Item(NEWEST, 2)])))
  {
    var s9 := FlushSent().(running := [Task(SaveOp(JoinedSave()), Some(false))]);
    steps := Grow(s0, sofar, FlushSent(), Execute(0, 0, LostBefore), s9);
    var s10 := s9.(pc := Top, running := [], lanes := map[], past := s9.past.(failed := [Item(NEWEST, 2)]));
    steps := Grow(s0, steps, s9, Join(0, 0), s10);
  }

  /** Both statements are lost: the flush fails, and the newest autosave, which travelled with it, is
      neither written nor retried. */
  lemma AutosaveLostExample() returns (steps: seq<Step>)
    ensures Runs(Initial(Tables(map[], map[])), steps,
                 Quiet(Top, map[], [], Asked(), [FirstOp(), SaveOp(JoinedSave())],
                       Past(map[1 := Accepted(2, true)], [], [Item(NEWEST, 2)])))
  {
    var s0 := Initial(Tables(map[], map[]));
    steps := GetBusy();
    steps := QueueFlush(s0, steps);
    steps := JoinFlush(s0, steps);
    steps := GiveWay(s0, steps);
    steps := SendFlush(s0, steps);
    steps := LoseFlush(s0, steps);
  }
}
