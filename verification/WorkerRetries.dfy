/** When the worker tries again, and when it never does. */
module WorkerRetries {
  import opened Common
  import opened Database
  import opened Worker
  import opened WorkerSafety
  import opened WorkerSaves

  // ----- an accepted request is ready at once

  /** An accepted request replaces what its lane had waiting: an exit drops the save, a save makes it a
      flush if either was one, and the lane may start at any time unless something is in flight. */
  lemma AcceptedIsReady(lanes: Lanes, n: nat, req: Request, now: int)
    requires !IsRefused(lanes, req)
    ensures var p := req.snapshot.player;
            var was, after := LaneOf(lanes, p), HandleRequest(lanes, n, req).0;
            && p in after && after.Keys == lanes.Keys + {p}
            && (forall q :: q in lanes && q != p ==> after[q] == lanes[q])
            && after[p].inFlight == was.inFlight && (after[p].inFlight || MayStart(after[p], now))
            && match req
               case ExitRequest(user, lease, s) =>
                 after[p].exit == Some(PendingExit(user, lease, Item(s, n), n)) && after[p].save == None
               case SaveRequest(s, urgency, _) =>
                 && after[p].exit == None && after[p].save.Some? && after[p].save.value.item == Item(s, n)
                 && (HasFlush(after[p]) <==> urgency.FlushNow? || HasFlush(was))
  {
  }

  /** What is recorded of a request: refused are exactly saves behind an exit, and a save joins a flush
      exactly if one is waiting in its lane. */
  lemma AcceptanceNoted(past: Past, lanes: Lanes, n: nat, req: Request)
    ensures var p, was := req.snapshot.player, LaneOf(lanes, req.snapshot.player);
            NoteRequest(past, lanes, n, req) ==
              if req.SaveRequest? && was.exit.Some? then past
              else past.(accepted := past.accepted[p := Accepted(n, req.SaveRequest? && HasFlush(was))])
  {
  }

  // ----- a failed autosave waits

  /** The lane of an autosave that failed with nothing newer behind it. */
  function Resting(save: PendingSave, until: int): Lane {
    Lane(false, Some(save), None, Some(until))
  }

  /** The steps bring no request for the player, and what they dispatch they dispatch before `until`. */
  ghost predicate Undisturbed(steps: seq<Step>, p: PlayerId, until: int) {
    forall i :: 0 <= i < |steps| ==>
      && (steps[i].Receive? ==> steps[i].req.snapshot.player != p)
      && (steps[i].Dispatch? ==> steps[i].now < until)
  }

  lemma {:induction false} DispatchLeavesLane(s: Sys, order: seq<PlayerId>, p: PlayerId)
    requires p in s.lanes && p !in order
    ensures p in DispatchAll(s, order).lanes && DispatchAll(s, order).lanes[p] == s.lanes[p]
    decreases |order|
  {
    if order != [] && |s.running| < MAX_CONCURRENT_SAVES {
      if order[0] in s.lanes && NextDispatch(s.lanes[order[0]]).Some? {
        DispatchLeavesLane(DispatchOne(s, order[0]), order[1..], p);
      } else {
        DispatchLeavesLane(s, order[1..], p);
      }
    }
  }

  lemma RestsOn(s: Sys, step: Step, p: PlayerId, save: PendingSave, until: int)
    requires Inv(s) && Enabled(s, step) && p in s.lanes && s.lanes[p] == Resting(save, until)
    requires save.urgency.Autosave? && Undisturbed([step], p, until)
    ensures p in Next(s, step).lanes && Next(s, step).lanes[p] == s.lanes[p]
  {
    assert [step][0] == step;
    match step {
      case Dispatch(now, order, _) =>
        ReadyOrderExact(s.lanes, now, order);
        DispatchLeavesLane(s, order, p);
      case Join(i, now) =>
        assert TaskOk(s, s.running[i]);
        CompletedLanes(s.lanes, s.running[i].op, s.running[i].result.value, now, p);
      case _ =>
    }
  }

  lemma {:induction false} RestsThrough(s: Sys, steps: seq<Step>, t: Sys, p: PlayerId, save: PendingSave, until: int)
    requires Inv(s) && Runs(s, steps, t) && p in s.lanes && s.lanes[p] == Resting(save, until)
    requires save.urgency.Autosave? && Undisturbed(steps, p, until)
    ensures p in t.lanes && t.lanes[p] == Resting(save, until)
    decreases |steps|
  {
    if steps != [] {
      assert [steps[0]][0] == steps[0];
      RestsOn(s, steps[0], p, save, until);
      NextKeeps(s, steps[0]);
      RestsThrough(Next(s, steps[0]), steps[1..], t, p, save, until);
    }
  }

  lemma JoinRests(s: Sys, i: nat, now: int)
    requires Inv(s) && Enabled(s, Join(i, now)) && s.running[i].result == Some(false) && s.running[i].op.IsAutosave()
    requires var lane := LaneOf(s.lanes, s.running[i].op.Player()); lane.save.None? && lane.exit.None?
    ensures var op, lanes := s.running[i].op, Next(s, Join(i, now)).lanes;
            op.Player() in lanes && lanes[op.Player()] == Resting(op.save, now + 1000)
  {
    assert TaskOk(s, s.running[i]);
  }

  lemma RestingReady(lanes: Lanes, p: PlayerId, save: PendingSave, until: int, later: int, order: seq<PlayerId>)
    requires p in lanes && lanes[p] == Resting(save, until) && save.urgency.Autosave?
    requires ReadyOrder(lanes, later, order)
    ensures p in order <==> until <= later
  {
    ReadyOrderExact(lanes, later, order);
  }

  /** A failed autosave with nothing newer behind it waits a second, whatever happens to other players:
      until then it is not dispatched, and from then on it is ready. */
  lemma RetryWaits(db: Tables, before: seq<Step>, s: Sys, i: nat, now: int, steps: seq<Step>, t: Sys)
    requires Runs(Initial(db), before, s) && Enabled(s, Join(i, now)) && s.running[i].result == Some(false)
    requires s.running[i].op.IsAutosave()
    requires var lane := LaneOf(s.lanes, s.running[i].op.Player()); lane.save.None? && lane.exit.None?
    requires Runs(Next(s, Join(i, now)), steps, t) && Undisturbed(steps, s.running[i].op.Player(), now + 1000)
    ensures var op := s.running[i].op;
            && op.Player() in t.lanes && t.lanes[op.Player()].save == Some(op.save)
            && forall later: int, order: seq<PlayerId> :: ReadyOrder(t.lanes, later, order) ==>
                 (op.Player() in order <==> now + 1000 <= later)
  {
    var op := s.running[i].op;
    RunKeeps(Initial(db), before, s);
    NextKeeps(s, Join(i, now));
    JoinRests(s, i, now);
    RestsThrough(Next(s, Join(i, now)), steps, t, op.Player(), op.save, now + 1000);
    forall later: int, order: seq<PlayerId> | ReadyOrder(t.lanes, later, order)
      ensures op.Player() in order <==> now + 1000 <= later
    {
      RestingReady(t.lanes, op.Player(), op.save, now + 1000, later, order);
    }
  }

  // ----- a stale snapshot is not tried again

  /** Lanes wait with newer snapshots than those under way. */
  ghost predicate LanesAhead(s: Sys) {
    forall i, p :: 0 <= i < |s.running| && p in s.lanes ==> !LaneCarries(s.lanes[p], s.running[i].op.Arrival())
  }

  /** A task that has run, and as an autosave has been told that all is well. */
  predicate GivenUp(task: Task) {
    task.result.Some? && (task.op.IsAutosave() ==> task.result == Some(true))
  }

  ghost predicate NotTriedAgain(s: Sys, item: Item) {
    && ItemOk(s.requests, item)
    && (forall p :: p in s.lanes ==> !LaneCarries(s.lanes[p], item.arrival))
    && (forall i :: 0 <= i < |s.running| && s.running[i].op.Arrival() == item.arrival ==> GivenUp(s.running[i]))
  }

  ghost predicate StaleOk(s: Sys) {
    LanesAhead(s) && forall k :: 0 <= k < |s.past.stale| ==> NotTriedAgain(s, s.past.stale[k])
  }

  /** Only one lane, and only one task, can have the snapshot of an arrival. */
  lemma OneCarrier(s: Sys, i: nat, p: PlayerId)
    requires LanesOk(s) && TasksOk(s) && i < |s.running| && p in s.lanes
    requires LaneCarries(s.lanes[p], s.running[i].op.Arrival())
    ensures p == s.running[i].op.Player()
  {
    assert TaskOk(s, s.running[i]) && LaneOk(s.requests, s.dispatched, p, s.lanes[p]);
  }

  lemma OneTask(s: Sys, i: nat, j: nat)
    requires TasksOk(s) && i < |s.running| && j < |s.running|
    requires s.running[i].op.Arrival() == s.running[j].op.Arrival()
    ensures i == j
  {
    assert TaskOk(s, s.running[i]) && TaskOk(s, s.running[j]);
  }

  lemma ReceiveStale(s: Sys, req: Request)
    requires Inv(s) && StaleOk(s) && Enabled(s, Receive(req))
    ensures StaleOk(Next(s, Receive(req)))
  {
    var s', n := Next(s, Receive(req)), |s.requests|;
    forall p, id: nat | p in s'.lanes && LaneCarries(s'.lanes[p], id)
      ensures id == n || (p in s.lanes && LaneCarries(s.lanes[p], id))
    {
    }
    forall i | 0 <= i < |s.running| ensures s.running[i].op.Arrival() < n {
      assert TaskOk(s, s.running[i]);
    }
    forall k | 0 <= k < |s.past.stale| ensures NotTriedAgain(s', s.past.stale[k]) {
      assert NotTriedAgain(s, s.past.stale[k]);
    }
  }

  lemma DispatchOneStale(s: Sys, p: PlayerId)
    requires Core(s) && StaleOk(s) && CanDispatch(s, p)
    ensures StaleOk(DispatchOne(s, p))
  {
    var s', op := DispatchOne(s, p), NextDispatch(s.lanes[p]).value;
    assert LaneOk(s.requests, s.dispatched, p, s.lanes[p]) && LaneCarries(s.lanes[p], op.Arrival());
    forall i, q | 0 <= i < |s'.running| && q in s'.lanes
      ensures !LaneCarries(s'.lanes[q], s'.running[i].op.Arrival())
    {
      if i < |s.running| {
        assert !LaneCarries(s.lanes[q], s.running[i].op.Arrival());
      } else if q != p {
        assert LaneOk(s.requests, s.dispatched, q, s.lanes[q]);
      }
    }
    forall k | 0 <= k < |s.past.stale| ensures NotTriedAgain(s', s.past.stale[k]) {
      assert NotTriedAgain(s, s.past.stale[k]);
    }
  }

  lemma {:induction false} DispatchAllStale(s: Sys, order: seq<PlayerId>)
    requires Core(s) && StaleOk(s) && Planned(s, order)
    ensures StaleOk(DispatchAll(s, order))
    decreases |order|
  {
    if order != [] && |s.running| < MAX_CONCURRENT_SAVES {
      assert CanDispatch(s, order[0]);
      DispatchOneKeeps(s, order[0]);
      DispatchOneStale(s, order[0]);
      PlannedNext(s, order);
      DispatchAllStale(DispatchOne(s, order[0]), order[1..]);
    }
  }

  /** A completion gives its lane nothing but a failed autosave of its own. */
  lemma JoinCarries(lanes: Lanes, op: Op, ok: bool, now: int, p: PlayerId, id: nat)
    requires p in HandleCompleted(lanes, op, ok, now).0 && LaneCarries(HandleCompleted(lanes, op, ok, now).0[p], id)
    ensures p in lanes
    ensures LaneCarries(lanes[p], id) || (p == op.Player() && op.IsAutosave() && !ok && id == op.Arrival())
  {
  }

  lemma JoinAhead(s: Sys, i: nat, now: int, j: nat, p: PlayerId)
    requires Inv(s) && LanesAhead(s) && Enabled(s, Join(i, now)) && j < |s.running| && j != i
    requires p in Next(s, Join(i, now)).lanes
    ensures !LaneCarries(Next(s, Join(i, now)).lanes[p], s.running[j].op.Arrival())
  {
    var op, ok := s.running[i].op, s.running[i].result.value;
    if LaneCarries(HandleCompleted(s.lanes, op, ok, now).0[p], s.running[j].op.Arrival()) {
      JoinCarries(s.lanes, op, ok, now, p, s.running[j].op.Arrival());
      OneTask(s, i, j);
    }
  }

  lemma JoinLeaves(s: Sys, i: nat, now: int, item: Item)
    requires Enabled(s, Join(i, now)) && NotTriedAgain(s, item)
    ensures NotTriedAgain(Next(s, Join(i, now)), item)
  {
    var s', op, ok := Next(s, Join(i, now)), s.running[i].op, s.running[i].result.value;
    RemovedAt(s.running, i);
    forall p | p in s'.lanes ensures !LaneCarries(s'.lanes[p], item.arrival) {
      if LaneCarries(s'.lanes[p], item.arrival) {
        JoinCarries(s.lanes, op, ok, now, p, item.arrival);
      }
    }
  }

  lemma JoinStale(s: Sys, i: nat, now: int)
    requires Inv(s) && StaleOk(s) && Enabled(s, Join(i, now))
    ensures StaleOk(Next(s, Join(i, now)))
  {
    var s' := Next(s, Join(i, now));
    RemovedAt(s.running, i);
    forall j, p | 0 <= j < |s'.running| && p in s'.lanes
      ensures !LaneCarries(s'.lanes[p], s'.running[j].op.Arrival())
    {
      JoinAhead(s, i, now, if j < i then j else j + 1, p);
    }
    forall k | 0 <= k < |s'.past.stale| ensures NotTriedAgain(s', s'.past.stale[k]) {
      JoinLeaves(s, i, now, s.past.stale[k]);
    }
  }

  /** What is known of an item survives a statement of another task. */
  lemma ExecuteLeaves(s: Sys, i: nat, now: int, fault: Fault, item: Item)
    requires TasksOk(s) && Enabled(s, Execute(i, now, fault)) && NotTriedAgain(s, item)
    ensures NotTriedAgain(Next(s, Execute(i, now, fault)), item)
  {
    var s' := Next(s, Execute(i, now, fault));
    forall j | 0 <= j < |s'.running| && s'.running[j].op.Arrival() == item.arrival ensures GivenUp(s'.running[j]) {
      assert s.running[j].op.Arrival() == item.arrival;
      assert j != i;
    }
  }

  lemma ExecuteGivesUp(s: Sys, i: nat, now: int)
    requires Inv(s) && LanesAhead(s) && Enabled(s, Execute(i, now, Clean))
    requires Exec(s.db, now, Statement(s.running[i].op)).1.StaleOwner?
    ensures NotTriedAgain(Next(s, Execute(i, now, Clean)), s.running[i].op.TheItem())
  {
    var s', op := Next(s, Execute(i, now, Clean)), s.running[i].op;
    assert TaskOk(s, s.running[i]);
    forall j | 0 <= j < |s'.running| && s'.running[j].op.Arrival() == op.Arrival() ensures GivenUp(s'.running[j]) {
      OneTask(s, i, j);
    }
  }

  lemma ExecuteStale(s: Sys, i: nat, now: int, fault: Fault)
    requires Inv(s) && StaleOk(s) && Enabled(s, Execute(i, now, fault))
    ensures StaleOk(Next(s, Execute(i, now, fault)))
  {
    var s' := Next(s, Execute(i, now, fault));
    forall k | 0 <= k < |s'.past.stale| ensures NotTriedAgain(s', s'.past.stale[k]) {
      if k < |s.past.stale| {
        ExecuteLeaves(s, i, now, fault, s.past.stale[k]);
      } else {
        ExecuteGivesUp(s, i, now);
      }
    }
  }

  lemma StaleNext(s: Sys, step: Step)
    requires Inv(s) && StaleOk(s) && Enabled(s, step)
    ensures StaleOk(Next(s, step))
  {
    match step {
      case Dispatch(now, order, _) =>
        ReadyIsPlanned(s, now, order);
        DispatchAllStale(s, order);
        var s', d := Next(s, step), DispatchAll(s, order);
        forall k | 0 <= k < |d.past.stale| ensures NotTriedAgain(s', d.past.stale[k]) {
          assert NotTriedAgain(d, d.past.stale[k]);
        }
      case Receive(req) => ReceiveStale(s, req);
      case Join(i, now) => JoinStale(s, i, now);
      case Execute(i, now, fault) => ExecuteStale(s, i, now, fault);
      case _ =>
        forall k | 0 <= k < |s.past.stale| ensures NotTriedAgain(Next(s, step), s.past.stale[k]) {
          assert NotTriedAgain(s, s.past.stale[k]);
        }
    }
  }

  lemma {:induction false} StaleRun(s: Sys, steps: seq<Step>, t: Sys)
    requires Inv(s) && StaleOk(s) && Runs(s, steps, t)
    ensures StaleOk(t)
    decreases |steps|
  {
    if steps != [] {
      NextKeeps(s, steps[0]);
      StaleNext(s, steps[0]);
      StaleRun(Next(s, steps[0]), steps[1..], t);
    }
  }

  /** In every run a snapshot whose row turned out to have a newer owner is not tried again: no lane
      has it, and no task that is still to run. */
  lemma StaleNotRetried(db: Tables, steps: seq<Step>, t: Sys, k: nat)
    requires Runs(Initial(db), steps, t) && k < |t.past.stale|
    ensures forall p :: p in t.lanes ==> !LaneCarries(t.lanes[p], t.past.stale[k].arrival)
    ensures forall i :: 0 <= i < |t.running| && t.running[i].op.Arrival() == t.past.stale[k].arrival ==>
              t.running[i].result.Some?
  {
    StaleRun(Initial(db), steps, t);
    assert NotTriedAgain(t, t.past.stale[k]);
  }
}
