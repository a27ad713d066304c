/** What becomes of every request: at most one answer, and none forgotten. */
module WorkerReplies {
  import opened Common
  import opened Database
  import opened Worker
  import opened WorkerSafety

  // ----- at most one answer

  /** The reply channel an operation still holds. */
  function ReplyOf(op: Op): Option<nat> {
    if op.SaveOp? then op.save.reply else Some(op.exit.reply)
  }

  predicate LaneHolds(lane: Lane, id: nat) {
    (lane.save.Some? && lane.save.value.reply == Some(id)) || (lane.exit.Some? && lane.exit.value.reply == id)
  }

  ghost predicate Answered(replies: seq<Reply>, id: nat) {
    exists k :: 0 <= k < |replies| && replies[k].id == id
  }

  ghost predicate HeldByLane(lanes: Lanes, id: nat) {
    exists p :: p in lanes && LaneHolds(lanes[p], id)
  }

  ghost predicate HeldByTask(running: seq<Task>, id: nat) {
    exists i :: 0 <= i < |running| && ReplyOf(running[i].op) == Some(id)
  }

  ghost predicate Distinct(replies: seq<Reply>) {
    forall j, k :: 0 <= j < k < |replies| ==> replies[j].id != replies[k].id
  }

  /** A reply channel is with a lane, with a task, or used up, and only of a request received. */
  ghost predicate Once(s: Sys) {
    && Distinct(s.replies)
    && (forall id: nat :: Answered(s.replies, id) || HeldByLane(s.lanes, id) || HeldByTask(s.running, id) ==>
        id < |s.requests|)
    && (forall id: nat :: HeldByLane(s.lanes, id) ==> !Answered(s.replies, id) && !HeldByTask(s.running, id))
    && (forall id: nat :: HeldByTask(s.running, id) ==> !Answered(s.replies, id))
  }

  lemma ReplyHasPlayer(reqs: seq<Request>, op: Op)
    requires OpOk(reqs, op) && ReplyOf(op).Some?
    ensures ReplyOf(op).value < |reqs| && reqs[ReplyOf(op).value].snapshot.player == op.Player()
  {
  }

  lemma LaneHasPlayer(s: Sys, p: PlayerId, id: nat)
    requires LanesOk(s) && p in s.lanes && LaneHolds(s.lanes[p], id)
    ensures id < |s.requests| && s.requests[id].snapshot.player == p
  {
    assert LaneOk(s.requests, s.dispatched, p, s.lanes[p]);
  }

  lemma TaskHasPlayer(s: Sys, i: nat, id: nat)
    requires TasksOk(s) && i < |s.running| && ReplyOf(s.running[i].op) == Some(id)
    ensures id < |s.requests| && s.requests[id].snapshot.player == s.running[i].op.Player()
  {
    assert TaskOk(s, s.running[i]);
    ReplyHasPlayer(s.requests, s.running[i].op);
  }

  /** Nothing but the new request's own channel is new in the lanes and the answers. */
  lemma ReceiveHolds(s: Sys, req: Request, id: nat)
    requires HeldByLane(HandleRequest(s.lanes, |s.requests|, req).0, id)
    ensures HeldByLane(s.lanes, id) || (id == |s.requests| && HandleRequest(s.lanes, |s.requests|, req).1 == [])
  {
    var lanes := HandleRequest(s.lanes, |s.requests|, req).0;
    var p :| p in lanes && LaneHolds(lanes[p], id);
    if p in s.lanes && LaneHolds(s.lanes[p], id) {
      assert HeldByLane(s.lanes, id);
    }
  }

  lemma AnsweredMore(replies: seq<Reply>, more: seq<Reply>, id: nat)
    requires Answered(replies + more, id)
    ensures Answered(replies, id) || Answered(more, id)
  {
    var k :| 0 <= k < |replies + more| && (replies + more)[k].id == id;
    if k < |replies| {
      assert replies[k].id == id;
    } else {
      assert more[k - |replies|].id == id;
    }
  }

  lemma ReceiveOnce(s: Sys, req: Request)
    requires Once(s) && Enabled(s, Receive(req))
    ensures Once(Next(s, Receive(req)))
  {
    var n, s' := |s.requests|, Next(s, Receive(req));
    var more := HandleRequest(s.lanes, n, req).1;
    assert more == [] || (|more| == 1 && more[0].id == n);
    assert !Answered(s.replies, n) && !HeldByTask(s.running, n);
    forall k | 0 <= k < |s.replies| ensures s.replies[k].id != n {
      assert s.replies[k].id == n ==> Answered(s.replies, n);
    }
    forall id: nat | HeldByLane(s'.lanes, id) ensures HeldByLane(s.lanes, id) || (id == n && more == []) {
      ReceiveHolds(s, req, id);
    }
    forall id: nat | Answered(s'.replies, id) ensures Answered(s.replies, id) || (id == n && more != []) {
      AnsweredMore(s.replies, more, id);
    }
  }

  lemma DispatchOneHolds(s: Sys, p: PlayerId, id: nat)
    requires Core(s) && CanDispatch(s, p)
    ensures var s', op := DispatchOne(s, p), NextDispatch(s.lanes[p]).value;
            && (ReplyOf(op) == Some(id) ==> HeldByLane(s.lanes, id))
            && (HeldByTask(s'.running, id) ==> HeldByTask(s.running, id) || ReplyOf(op) == Some(id))
            && (HeldByLane(s'.lanes, id) ==> HeldByLane(s.lanes, id) && ReplyOf(op) != Some(id))
  {
    var s', op := DispatchOne(s, p), NextDispatch(s.lanes[p]).value;
    assert LaneOk(s.requests, s.dispatched, p, s.lanes[p]);
    if ReplyOf(op) == Some(id) {
      assert LaneHolds(s.lanes[p], id);
      LaneHasPlayer(s, p, id);
    }
    if HeldByTask(s'.running, id) {
      var i :| 0 <= i < |s'.running| && ReplyOf(s'.running[i].op) == Some(id);
      assert i < |s.running| ==> ReplyOf(s.running[i].op) == Some(id);
    }
    if HeldByLane(s'.lanes, id) {
      var q :| q in s'.lanes && LaneHolds(s'.lanes[q], id);
      assert q != p;
      LaneHasPlayer(s, q, id);
    }
  }

  lemma DispatchOneOnce(s: Sys, p: PlayerId)
    requires Core(s) && Once(s) && CanDispatch(s, p)
    ensures Once(DispatchOne(s, p))
  {
    forall id: nat ensures
      var s', op := DispatchOne(s, p), NextDispatch(s.lanes[p]).value;
      && (ReplyOf(op) == Some(id) ==> HeldByLane(s.lanes, id))
      && (HeldByTask(s'.running, id) ==> HeldByTask(s.running, id) || ReplyOf(op) == Some(id))
      && (HeldByLane(s'.lanes, id) ==> HeldByLane(s.lanes, id) && ReplyOf(op) != Some(id))
    {
      DispatchOneHolds(s, p, id);
    }
  }

  lemma {:induction false} DispatchAllOnce(s: Sys, order: seq<PlayerId>)
    requires Core(s) && Once(s) && Planned(s, order)
    ensures Once(DispatchAll(s, order))
    decreases |order|
  {
    if order != [] && |s.running| < MAX_CONCURRENT_SAVES {
      assert CanDispatch(s, order[0]);
      DispatchOneOnce(s, order[0]);
      DispatchOneKeeps(s, order[0]);
      PlannedNext(s, order);
      DispatchAllOnce(DispatchOne(s, order[0]), order[1..]);
    }
  }

  lemma CompletedHolds(lanes: Lanes, op: Op, ok: bool, now: int, id: nat)
    requires HeldByLane(HandleCompleted(lanes, op, ok, now).0, id)
    ensures HeldByLane(lanes, id) || (ReplyOf(op) == Some(id) && HandleCompleted(lanes, op, ok, now).1 == [])
  {
    var lanes' := HandleCompleted(lanes, op, ok, now).0;
    var p :| p in lanes' && LaneHolds(lanes'[p], id);
    if p in lanes && LaneHolds(lanes[p], id) {
      assert HeldByLane(lanes, id);
    }
  }

  /** A task that is left when one completes is another one. */
  lemma HolderLeft(running: seq<Task>, i: nat, id: nat) returns (k: nat)
    requires i < |running| && HeldByTask(running[..i] + running[i + 1..], id)
    ensures k < |running| && k != i && ReplyOf(running[k].op) == Some(id)
  {
    var rest := running[..i] + running[i + 1..];
    var j :| 0 <= j < |rest| && ReplyOf(rest[j].op) == Some(id);
    RemovedAt(running, i);
    k := if j < i then j else j + 1;
  }

  lemma TasksHoldApart(s: Sys, i: nat, k: nat, id: nat)
    requires TasksOk(s) && i < |s.running| && k < |s.running| && i != k && ReplyOf(s.running[k].op) == Some(id)
    ensures ReplyOf(s.running[i].op) != Some(id)
  {
    if ReplyOf(s.running[i].op) == Some(id) {
      TaskHasPlayer(s, i, id);
      TaskHasPlayer(s, k, id);
    }
  }

  lemma JoinReleases(s: Sys, i: nat, id: nat)
    requires TasksOk(s) && i < |s.running| && HeldByTask(s.running[..i] + s.running[i + 1..], id)
    ensures HeldByTask(s.running, id) && ReplyOf(s.running[i].op) != Some(id)
  {
    var k := HolderLeft(s.running, i, id);
    TasksHoldApart(s, i, k, id);
  }

  /** A completed operation's channel goes back to its lane, is used for an answer, or is dropped. */
  lemma ChannelMoves(s: Sys, s': Sys, op: Op, more: seq<Reply>)
    requires Once(s) && s'.replies == s.replies + more && s'.requests == s.requests
    requires more == [] || (|more| == 1 && ReplyOf(op) == Some(more[0].id))
    requires ReplyOf(op).Some? ==> HeldByTask(s.running, ReplyOf(op).value)
    requires forall id: nat :: HeldByLane(s'.lanes, id) ==>
        HeldByLane(s.lanes, id) || (ReplyOf(op) == Some(id) && more == [])
    requires forall id: nat :: HeldByTask(s'.running, id) ==> HeldByTask(s.running, id) && ReplyOf(op) != Some(id)
    ensures Once(s')
  {
    forall k | 0 <= k < |s.replies| ensures Answered(s.replies, s.replies[k].id) {
    }
    forall id: nat | Answered(s'.replies, id)
      ensures Answered(s.replies, id) || (ReplyOf(op) == Some(id) && more != [])
    {
      AnsweredMore(s.replies, more, id);
    }
  }

  lemma JoinOnce(s: Sys, i: nat, now: int)
    requires Core(s) && Once(s) && Enabled(s, Join(i, now))
    ensures Once(Next(s, Join(i, now)))
  {
    var s', op := Next(s, Join(i, now)), s.running[i].op;
    var more := HandleCompleted(s.lanes, op, s.running[i].result.value, now).1;
    assert ReplyOf(op).Some? ==> HeldByTask(s.running, ReplyOf(op).value);
    forall id: nat | HeldByLane(s'.lanes, id)
      ensures HeldByLane(s.lanes, id) || (ReplyOf(op) == Some(id) && more == [])
    {
      CompletedHolds(s.lanes, op, s.running[i].result.value, now, id);
    }
    forall id: nat | HeldByTask(s'.running, id) ensures HeldByTask(s.running, id) && ReplyOf(op) != Some(id) {
      JoinReleases(s, i, id);
    }
    ChannelMoves(s, s', op, more);
  }

  lemma ExecuteOnce(s: Sys, i: nat, now: int, fault: Fault)
    requires Once(s) && Enabled(s, Execute(i, now, fault))
    ensures Once(Next(s, Execute(i, now, fault)))
  {
    var s' := Next(s, Execute(i, now, fault));
    forall id: nat | HeldByTask(s'.running, id) ensures HeldByTask(s.running, id) {
      var j :| 0 <= j < |s'.running| && ReplyOf(s'.running[j].op) == Some(id);
      assert ReplyOf(s.running[j].op) == Some(id);
    }
  }

  lemma NextOnce(s: Sys, step: Step)
    requires Inv(s) && Once(s) && Enabled(s, step)
    ensures Once(Next(s, step))
  {
    match step {
      case Dispatch(now, order, _) =>
        ReadyIsPlanned(s, now, order);
        DispatchAllOnce(s, order);
      case Receive(req) => ReceiveOnce(s, req);
      case Join(i, now) => JoinOnce(s, i, now);
      case Execute(i, now, fault) => ExecuteOnce(s, i, now, fault);
      case _ =>
    }
  }

  lemma {:induction false} RunOnce(s: Sys, steps: seq<Step>, t: Sys)
    requires Inv(s) && Once(s) && Runs(s, steps, t)
    ensures Once(t)
    decreases |steps|
  {
    if steps != [] {
      NextOnce(s, steps[0]);
      NextKeeps(s, steps[0]);
      RunOnce(Next(s, steps[0]), steps[1..], t);
    }
  }

  /** In every run a request is answered at most once, and only after it was received. */
  lemma AnsweredOnce(db: Tables, steps: seq<Step>, t: Sys)
    requires Runs(Initial(db), steps, t)
    ensures forall j, k :: 0 <= j < k < |t.replies| ==> t.replies[j].id != t.replies[k].id
    ensures forall k :: 0 <= k < |t.replies| ==> t.replies[k].id < |t.requests|
  {
    RunOnce(Initial(db), steps, t);
    forall k | 0 <= k < |t.replies| ensures t.replies[k].id < |t.requests| {
      assert Answered(t.replies, t.replies[k].id);
    }
  }

  // ----- the fate of every request

  /** A request whose sender waits for an answer: an exit, or a flush with a reply channel. */
  predicate Awaited(req: Request) {
    req.ExitRequest? || (req.urgency.FlushNow? && req.wantsReply)
  }

  /** A later exit of the same player has taken the request's place, or will find it done. */
  ghost predicate Superseded(reqs: seq<Request>, id: nat)
    requires id < |reqs|
  {
    exists j :: id < j < |reqs| && reqs[j].ExitRequest? && reqs[j].snapshot.player == reqs[id].snapshot.player
  }

  ghost predicate AccountedFor(s: Sys, id: nat)
    requires id < |s.requests|
  {
    Answered(s.replies, id) || HeldByLane(s.lanes, id) || HeldByTask(s.running, id) || Superseded(s.requests, id)
  }

  /** A save that holds an awaited channel is a flush, so that its completion answers. */
  predicate SaveMarked(reqs: seq<Request>, save: PendingSave) {
    save.reply.Some? && save.reply.value < |reqs| && Awaited(reqs[save.reply.value]) ==> save.urgency.FlushNow?
  }

  ghost predicate Accounted(s: Sys) {
    && (forall p :: p in s.lanes && s.lanes[p].save.Some? ==> SaveMarked(s.requests, s.lanes[p].save.value))
    && (forall i :: 0 <= i < |s.running| && s.running[i].op.SaveOp? ==> SaveMarked(s.requests, s.running[i].op.save))
    && (forall id: nat :: id < |s.requests| && Awaited(s.requests[id]) ==> AccountedFor(s, id))
  }

  lemma AnsweredGrows(replies: seq<Reply>, more: seq<Reply>, id: nat)
    requires Answered(replies, id) || Answered(more, id)
    ensures Answered(replies + more, id)
  {
    if Answered(replies, id) {
      var k :| 0 <= k < |replies| && replies[k].id == id;
      assert (replies + more)[k].id == id;
    } else {
      var k :| 0 <= k < |more| && more[k].id == id;
      assert (replies + more)[|replies| + k].id == id;
    }
  }

  lemma SupersededGrows(reqs: seq<Request>, req: Request, id: nat)
    requires id < |reqs| && Superseded(reqs, id)
    ensures Superseded(reqs + [req], id)
  {
    var j :| id < j < |reqs| && reqs[j].ExitRequest? && reqs[j].snapshot.player == reqs[id].snapshot.player;
    assert (reqs + [req])[j] == reqs[j];
  }

  /** A request leaves the channels of other requests where they are, unless an exit of the player
      takes their place; its own channel is held or answered. */
  lemma ReceiveFate(lanes: Lanes, n: nat, req: Request, p: PlayerId, id: nat)
    ensures var (lanes', replies) := HandleRequest(lanes, n, req);
            && (p in lanes && LaneHolds(lanes[p], id) && !(req.ExitRequest? && req.snapshot.player == p) ==>
                HeldByLane(lanes', id))
            && (Awaited(req) ==> HeldByLane(lanes', n) || Answered(replies, n))
  {
    var (lanes', replies) := HandleRequest(lanes, n, req);
    var q := req.snapshot.player;
    if p in lanes && LaneHolds(lanes[p], id) && !(req.ExitRequest? && q == p) {
      assert p in lanes' && LaneHolds(lanes'[p], id);
    }
    if Awaited(req) {
      if replies == [] {
        assert q in lanes' && LaneHolds(lanes'[q], n);
      } else {
        assert replies[0].id == n;
      }
    }
  }

  lemma ReceiveMarked(s: Sys, req: Request, p: PlayerId)
    requires Accounted(s) && LanesOk(s)
    requires p in HandleRequest(s.lanes, |s.requests|, req).0
        && HandleRequest(s.lanes, |s.requests|, req).0[p].save.Some?
    ensures SaveMarked(s.requests + [req], HandleRequest(s.lanes, |s.requests|, req).0[p].save.value)
  {
    if p in s.lanes {
      assert LaneOk(s.requests, s.dispatched, p, s.lanes[p]);
      assert s.lanes[p].save.Some? ==> SaveMarked(s.requests, s.lanes[p].save.value);
    }
  }

  lemma ReceiveAccountsFor(s: Sys, req: Request, id: nat)
    requires Accounted(s) && LanesOk(s) && Enabled(s, Receive(req)) && id <= |s.requests|
    requires Awaited((s.requests + [req])[id])
    ensures AccountedFor(Next(s, Receive(req)), id)
  {
    var n, s' := |s.requests|, Next(s, Receive(req));
    var (lanes', more) := HandleRequest(s.lanes, n, req);
    ReceiveFate(s.lanes, n, req, req.snapshot.player, id);
    if id == n {
      if Answered(more, n) {
        AnsweredGrows(s.replies, more, n);
      }
    } else {
      assert AccountedFor(s, id);
      if Answered(s.replies, id) {
        AnsweredGrows(s.replies, more, id);
      } else if Superseded(s.requests, id) {
        SupersededGrows(s.requests, req, id);
      } else if HeldByLane(s.lanes, id) {
        var p :| p in s.lanes && LaneHolds(s.lanes[p], id);
        ReceiveFate(s.lanes, n, req, p, id);
        LaneHasPlayer(s, p, id);
        if req.ExitRequest? && req.snapshot.player == p {
          assert s'.requests[n] == req && s'.requests[id] == s.requests[id];
        }
      }
    }
  }

  lemma ReceiveAccounted(s: Sys, req: Request)
    requires Inv(s) && Accounted(s) && Enabled(s, Receive(req))
    ensures Accounted(Next(s, Receive(req)))
  {
    var s' := Next(s, Receive(req));
    forall p | p in s'.lanes && s'.lanes[p].save.Some? ensures SaveMarked(s'.requests, s'.lanes[p].save.value) {
      ReceiveMarked(s, req, p);
    }
    forall i | 0 <= i < |s'.running| && s'.running[i].op.SaveOp?
      ensures SaveMarked(s'.requests, s'.running[i].op.save)
    {
      assert TaskOk(s, s.running[i]) && SaveMarked(s.requests, s.running[i].op.save);
    }
    forall id: nat | id < |s'.requests| && Awaited(s'.requests[id]) ensures AccountedFor(s', id) {
      ReceiveAccountsFor(s, req, id);
    }
  }

  lemma DispatchOneAccounted(s: Sys, p: PlayerId)
    requires Core(s) && Accounted(s) && CanDispatch(s, p)
    ensures Accounted(DispatchOne(s, p))
  {
    var s', op := DispatchOne(s, p), NextDispatch(s.lanes[p]).value;
    assert LaneOk(s.requests, s.dispatched, p, s.lanes[p]);
    forall i | 0 <= i < |s'.running| && s'.running[i].op.SaveOp?
      ensures SaveMarked(s'.requests, s'.running[i].op.save)
    {
      assert i < |s.running| ==> s'.running[i] == s.running[i];
    }
    forall id: nat | id < |s'.requests| && Awaited(s'.requests[id]) ensures AccountedFor(s', id) {
      assert AccountedFor(s, id);
      if HeldByTask(s.running, id) {
        var i :| 0 <= i < |s.running| && ReplyOf(s.running[i].op) == Some(id);
        assert ReplyOf(s'.running[i].op) == Some(id);
      } else if HeldByLane(s.lanes, id) {
        var q :| q in s.lanes && LaneHolds(s.lanes[q], id);
        if q == p {
          assert ReplyOf(s'.running[|s.running|].op) == Some(id);
        } else {
          assert LaneHolds(s'.lanes[q], id);
        }
      }
    }
  }

  lemma {:induction false} DispatchAllAccounted(s: Sys, order: seq<PlayerId>)
    requires Core(s) && Accounted(s) && Planned(s, order)
    ensures Accounted(DispatchAll(s, order))
    decreases |order|
  {
    if order != [] && |s.running| < MAX_CONCURRENT_SAVES {
      assert CanDispatch(s, order[0]);
      DispatchOneAccounted(s, order[0]);
      DispatchOneKeeps(s, order[0]);
      PlannedNext(s, order);
      DispatchAllAccounted(DispatchOne(s, order[0]), order[1..]);
    }
  }

  /** A completion answers the awaited channel of its operation and leaves the lanes' channels. */
  lemma CompletedFate(lanes: Lanes, op: Op, ok: bool, now: int, id: nat)
    requires op.Player() in lanes
    ensures var (lanes', replies) := HandleCompleted(lanes, op, ok, now);
            && (HeldByLane(lanes, id) ==> HeldByLane(lanes', id))
            && (ReplyOf(op) == Some(id) && (op.SaveOp? ==> op.save.urgency.FlushNow?) ==> Answered(replies, id))
  {
    var (lanes', replies) := HandleCompleted(lanes, op, ok, now);
    if HeldByLane(lanes, id) {
      var p :| p in lanes && LaneHolds(lanes[p], id);
      assert p in lanes' && LaneHolds(lanes'[p], id);
    }
    if ReplyOf(op) == Some(id) && (op.SaveOp? ==> op.save.urgency.FlushNow?) {
      assert replies[0].id == id;
    }
  }

  lemma HeldByOther(running: seq<Task>, i: nat, id: nat)
    requires i < |running| && HeldByTask(running, id) && ReplyOf(running[i].op) != Some(id)
    ensures HeldByTask(running[..i] + running[i + 1..], id)
  {
    var j :| 0 <= j < |running| && ReplyOf(running[j].op) == Some(id);
    RemovedAt(running, i);
    assert ReplyOf((running[..i] + running[i + 1..])[if j < i then j else j - 1].op) == Some(id);
  }

  lemma JoinAccountsFor(s: Sys, i: nat, now: int, id: nat)
    requires Core(s) && Accounted(s) && Enabled(s, Join(i, now)) && id < |s.requests| && Awaited(s.requests[id])
    ensures AccountedFor(Next(s, Join(i, now)), id)
  {
    var s', op := Next(s, Join(i, now)), s.running[i].op;
    var more := HandleCompleted(s.lanes, op, s.running[i].result.value, now).1;
    assert TaskOk(s, s.running[i]) && AccountedFor(s, id);
    CompletedFate(s.lanes, op, s.running[i].result.value, now, id);
    if Answered(s.replies, id) {
      AnsweredGrows(s.replies, more, id);
    } else if HeldByTask(s.running, id) {
      if ReplyOf(op) == Some(id) {
        assert op.SaveOp? ==> SaveMarked(s.requests, op.save);
        AnsweredGrows(s.replies, more, id);
      } else {
        HeldByOther(s.running, i, id);
      }
    }
  }

  lemma CompletedMarked(reqs: seq<Request>, lanes: Lanes, op: Op, ok: bool, now: int, p: PlayerId)
    requires op.SaveOp? ==> SaveMarked(reqs, op.save)
    requires forall q :: q in lanes && lanes[q].save.Some? ==> SaveMarked(reqs, lanes[q].save.value)
    requires p in HandleCompleted(lanes, op, ok, now).0 && HandleCompleted(lanes, op, ok, now).0[p].save.Some?
    ensures SaveMarked(reqs, HandleCompleted(lanes, op, ok, now).0[p].save.value)
  {
  }

  lemma JoinAccounted(s: Sys, i: nat, now: int)
    requires Core(s) && Accounted(s) && Enabled(s, Join(i, now))
    ensures Accounted(Next(s, Join(i, now)))
  {
    var s' := Next(s, Join(i, now));
    forall p | p in s'.lanes && s'.lanes[p].save.Some? ensures SaveMarked(s'.requests, s'.lanes[p].save.value) {
      CompletedMarked(s.requests, s.lanes, s.running[i].op, s.running[i].result.value, now, p);
    }
    forall j | 0 <= j < |s'.running| && s'.running[j].op.SaveOp?
      ensures SaveMarked(s'.requests, s'.running[j].op.save)
    {
      RemovedAt(s.running, i);
    }
    forall id: nat | id < |s'.requests| && Awaited(s'.requests[id]) ensures AccountedFor(s', id) {
      JoinAccountsFor(s, i, now, id);
    }
  }

  lemma SameChannels(s: Sys, s': Sys, id: nat)
    requires s'.requests == s.requests && s'.replies == s.replies && s'.lanes == s.lanes && |s'.running| == |s.running|
    requires forall j :: 0 <= j < |s.running| ==> s'.running[j].op == s.running[j].op
    requires id < |s.requests| && AccountedFor(s, id)
    ensures AccountedFor(s', id)
  {
    if HeldByTask(s.running, id) {
      var j :| 0 <= j < |s.running| && ReplyOf(s.running[j].op) == Some(id);
      assert ReplyOf(s'.running[j].op) == Some(id);
    }
  }

  lemma ExecuteAccounted(s: Sys, i: nat, now: int, fault: Fault)
    requires Accounted(s) && Enabled(s, Execute(i, now, fault))
    ensures Accounted(Next(s, Execute(i, now, fault)))
  {
    var s' := Next(s, Execute(i, now, fault));
    assert forall j :: 0 <= j < |s.running| ==> s'.running[j].op == s.running[j].op;
    forall id: nat | id < |s'.requests| && Awaited(s'.requests[id]) ensures AccountedFor(s', id) {
      SameChannels(s, s', id);
    }
  }

  /** Only the program counter, the database and whether the receiver is closed differ. */
  lemma PcAccounted(s: Sys, s': Sys)
    requires Accounted(s) && s' == s.(pc := s'.pc, db := s'.db, closed := s'.closed)
    ensures Accounted(s')
  {
    forall id: nat | id < |s'.requests| && Awaited(s'.requests[id]) ensures AccountedFor(s', id) {
      SameChannels(s, s', id);
    }
  }

  lemma DispatchAccounted(s: Sys, now: int, order: seq<PlayerId>, deadline: Option<int>)
    requires Inv(s) && Accounted(s) && Enabled(s, Dispatch(now, order, deadline))
    ensures Accounted(Next(s, Dispatch(now, order, deadline)))
  {
    ReadyIsPlanned(s, now, order);
    DispatchAllAccounted(s, order);
    PcAccounted(DispatchAll(s, order), Next(s, Dispatch(now, order, deadline)));
  }

  lemma NextAccounted(s: Sys, step: Step)
    requires Inv(s) && Accounted(s) && Enabled(s, step)
    ensures Accounted(Next(s, step))
  {
    match step {
      case Dispatch(now, order, deadline) => DispatchAccounted(s, now, order, deadline);
      case Receive(req) => ReceiveAccounted(s, req);
      case Join(i, now) => JoinAccounted(s, i, now);
      case Execute(i, now, fault) => ExecuteAccounted(s, i, now, fault);
      case _ => PcAccounted(s, Next(s, step));
    }
  }

  lemma {:induction false} RunAccounted(s: Sys, steps: seq<Step>, t: Sys)
    requires Inv(s) && Accounted(s) && Runs(s, steps, t)
    ensures Accounted(t)
    decreases |steps|
  {
    if steps != [] {
      NextAccounted(s, steps[0]);
      NextKeeps(s, steps[0]);
      RunAccounted(Next(s, steps[0]), steps[1..], t);
    }
  }

  /** In every run every exit, and every flush with a reply channel, is answered, or its channel is
      with a lane or a task, or a later exit of the player superseded it; once the worker has
      returned only answered and superseded requests are left. */
  lemma RequestsAccountedFor(db: Tables, steps: seq<Step>, t: Sys, id: nat)
    requires Runs(Initial(db), steps, t) && id < |t.requests| && Awaited(t.requests[id])
    ensures Answered(t.replies, id) || HeldByLane(t.lanes, id) || HeldByTask(t.running, id)
        || Superseded(t.requests, id)
    ensures t.pc.Returned? ==> Answered(t.replies, id) || Superseded(t.requests, id)
  {
    RunAccounted(Initial(db), steps, t);
    RunKeeps(Initial(db), steps, t);
    assert AccountedFor(t, id);
  }
}
