/** What every run of the worker keeps: order, fences, caps, progress and honest replies. */
module WorkerSafety {
  import opened Common
  import opened Database
  import opened Worker

  // ----- the invariant

  /** The item is the snapshot of the request at its arrival position. */
  predicate ItemOk(reqs: seq<Request>, item: Item) {
    item.arrival < |reqs| && reqs[item.arrival].snapshot == item.snapshot
  }

  /** A reply channel a save carries belongs to a save request no later than its snapshot. */
  predicate SaveOk(reqs: seq<Request>, save: PendingSave) {
    && ItemOk(reqs, save.item)
    && (save.reply.Some? ==>
          && save.reply.value <= save.item.arrival && reqs[save.reply.value].SaveRequest?
          && reqs[save.reply.value].snapshot.player == save.item.snapshot.player)
  }

  predicate ExitOk(reqs: seq<Request>, exit: PendingExit) {
    ItemOk(reqs, exit.item) && exit.reply == exit.item.arrival && reqs[exit.reply].ExitRequest?
  }

  predicate OpOk(reqs: seq<Request>, op: Op) {
    if op.SaveOp? then SaveOk(reqs, op.save) else ExitOk(reqs, op.exit)
  }

  /** Nothing dispatched for the player arrived after `a`. */
  ghost predicate Newest(ds: seq<Op>, p: PlayerId, a: int) {
    forall k :: 0 <= k < |ds| && ds[k].Player() == p ==> ds[k].Arrival() <= a
  }

  ghost predicate PendingOk(reqs: seq<Request>, ds: seq<Op>, p: PlayerId, op: Op) {
    OpOk(reqs, op) && op.Player() == p && Newest(ds, p, op.Arrival())
  }

  ghost predicate LaneOk(reqs: seq<Request>, ds: seq<Op>, p: PlayerId, lane: Lane) {
    && (lane.save.Some? ==> PendingOk(reqs, ds, p, SaveOp(lane.save.value)))
    && (lane.exit.Some? ==> PendingOk(reqs, ds, p, ExitOp(lane.exit.value)))
    && !(lane.save.Some? && lane.exit.Some?)
    && !IsIdle(lane)
    && (lane.retryAt.Some? ==>
          && lane.exit.None?
          && if lane.inFlight then lane.save.None? else lane.save.Some? && lane.save.value.urgency.Autosave?)
  }

  /** Some write in the log is this operation's own. */
  ghost predicate WroteOwn(ws: seq<Write>, op: Op) {
    exists k :: 0 <= k < |ws| && ws[k].item == op.TheItem() && ws[k].isExit == op.ExitOp?
  }

  ghost predicate TaskOk(s: Sys, task: Task) {
    var p := task.op.Player();
    && PendingOk(s.requests, s.dispatched, p, task.op) && task.op in s.dispatched
    && p in s.lanes && s.lanes[p].inFlight
    && (s.lanes[p].retryAt.Some? ==> task.op.IsAutosave())
    && (task.result == Some(true) && !task.op.IsAutosave() ==> WroteOwn(s.writes, task.op))
  }

  ghost predicate HasTask(running: seq<Task>, p: PlayerId) {
    exists i :: 0 <= i < |running| && running[i].op.Player() == p
  }

  ghost predicate OnePerPlayer(running: seq<Task>) {
    forall i, j :: 0 <= i < j < |running| ==> running[i].op.Player() != running[j].op.Player()
  }

  ghost predicate LanesOk(s: Sys) {
    forall p :: p in s.lanes ==> LaneOk(s.requests, s.dispatched, p, s.lanes[p])
  }

  /** At most one operation in flight per player, eight in all, each with its lane marked. */
  ghost predicate TasksOk(s: Sys) {
    && |s.running| <= MAX_CONCURRENT_SAVES
    && (forall i :: 0 <= i < |s.running| ==> TaskOk(s, s.running[i]))
    && OnePerPlayer(s.running)
    && (forall p :: p in s.lanes && s.lanes[p].inFlight ==> HasTask(s.running, p))
  }

  /** The write was dispatched, is a real request's snapshot, and met its own epoch. */
  ghost predicate WriteOk(s: Sys, w: Write) {
    && ItemOk(s.requests, w.item) && w.rowEpoch == w.item.snapshot.epoch
    && exists op :: op in s.dispatched && op.TheItem() == w.item
  }

  /** Per player, operations are dispatched and rows are written in arrival order. */
  ghost predicate LogOk(s: Sys) {
    && (forall k :: 0 <= k < |s.dispatched| ==> s.dispatched[k].Arrival() < |s.requests|)
    && (forall j, k :: 0 <= j < k < |s.dispatched| && s.dispatched[j].Player() == s.dispatched[k].Player() ==>
          s.dispatched[j].Arrival() <= s.dispatched[k].Arrival())
    && (forall k :: 0 <= k < |s.writes| ==> WriteOk(s, s.writes[k]))
    && (forall j, k ::
          0 <= j < k < |s.writes| && s.writes[j].item.snapshot.player == s.writes[k].item.snapshot.player ==>
          s.writes[j].item.arrival <= s.writes[k].item.arrival)
  }

  /** An Ok to a save request is backed by a write of that or a later snapshot of the player; an Ok
      to an exit by the commit of that very snapshot. */
  ghost predicate Justified(reqs: seq<Request>, ws: seq<Write>, r: Reply) {
    && r.id < |reqs|
    && exists k ::
         && 0 <= k < |ws| && ws[k].item.snapshot.player == reqs[r.id].snapshot.player
         && (if reqs[r.id].SaveRequest? then r.id <= ws[k].item.arrival && !ws[k].isExit
             else ws[k].item == Item(reqs[r.id].snapshot, r.id) && ws[k].isExit)
  }

  ghost predicate RepliesOk(s: Sys) {
    forall k :: 0 <= k < |s.replies| && s.replies[k].ok ==> Justified(s.requests, s.writes, s.replies[k])
  }

  /** At the wait point every lane is in flight, held back by the cap, or waits for its retry. */
  ghost predicate AllPlaced(lanes: Lanes, inFlight: nat) {
    forall p :: p in lanes ==> lanes[p].inFlight || inFlight >= MAX_CONCURRENT_SAVES || Waits(lanes[p])
  }

  ghost predicate PcOk(s: Sys) {
    match s.pc
    case Top => true
    case Waiting(deadline) => IsDeadline(s.lanes, deadline) && AllPlaced(s.lanes, |s.running|) && !Done(s)
    case Returned => Done(s)
  }

  ghost predicate Inv(s: Sys) {
    LanesOk(s) && TasksOk(s) && LogOk(s) && RepliesOk(s) && PcOk(s)
  }

  // ----- growth of the logs

  lemma OpOkGrows(reqs: seq<Request>, req: Request, op: Op)
    requires OpOk(reqs, op)
    ensures OpOk(reqs + [req], op)
  {
  }

  lemma JustifiedGrows(reqs: seq<Request>, reqs': seq<Request>, ws: seq<Write>, ws': seq<Write>, r: Reply)
    requires Justified(reqs, ws, r) && reqs <= reqs' && ws <= ws'
    ensures Justified(reqs', ws', r)
  {
    var k :|
      && 0 <= k < |ws| && ws[k].item.snapshot.player == reqs[r.id].snapshot.player
      && (if reqs[r.id].SaveRequest? then r.id <= ws[k].item.arrival && !ws[k].isExit
          else ws[k].item == Item(reqs[r.id].snapshot, r.id) && ws[k].isExit);
    assert ws'[k] == ws[k] && reqs'[r.id] == reqs[r.id];
  }

  lemma WroteOwnGrows(ws: seq<Write>, ws': seq<Write>, op: Op)
    requires WroteOwn(ws, op) && ws <= ws'
    ensures WroteOwn(ws', op)
  {
    var k :| 0 <= k < |ws| && ws[k].item == op.TheItem() && ws[k].isExit == op.ExitOp?;
    assert ws'[k] == ws[k];
  }

  // ----- receiving a request

  lemma LaneOkGrows(reqs: seq<Request>, ds: seq<Op>, p: PlayerId, lane: Lane, req: Request)
    requires LaneOk(reqs, ds, p, lane)
    ensures LaneOk(reqs + [req], ds, p, lane)
  {
    if lane.save.Some? {
      OpOkGrows(reqs, req, SaveOp(lane.save.value));
    }
    if lane.exit.Some? {
      OpOkGrows(reqs, req, ExitOp(lane.exit.value));
    }
  }

  /** The lane of the request's own player. */
  lemma ReceiveOwnLane(lanes: Lanes, reqs: seq<Request>, ds: seq<Op>, req: Request)
    requires req.snapshot.player in lanes ==> LaneOk(reqs, ds, req.snapshot.player, lanes[req.snapshot.player])
    requires Newest(ds, req.snapshot.player, |reqs|)
    requires req.snapshot.player in HandleRequest(lanes, |reqs|, req).0
    ensures LaneOk(reqs + [req], ds, req.snapshot.player, HandleRequest(lanes, |reqs|, req).0[req.snapshot.player])
  {
    var p := req.snapshot.player;
    if p in lanes {
      LaneOkGrows(reqs, ds, p, lanes[p], req);
    }
  }

  lemma ReceiveLane(s: Sys, req: Request, p: PlayerId)
    requires LanesOk(s) && LogOk(s)
    requires p in HandleRequest(s.lanes, |s.requests|, req).0
    ensures LaneOk(s.requests + [req], s.dispatched, p, HandleRequest(s.lanes, |s.requests|, req).0[p])
  {
    if p == req.snapshot.player {
      assert Newest(s.dispatched, p, |s.requests|);
      ReceiveOwnLane(s.lanes, s.requests, s.dispatched, req);
    } else {
      LaneOkGrows(s.requests, s.dispatched, p, s.lanes[p], req);
    }
  }

  lemma ReceiveTask(s: Sys, req: Request, s': Sys, i: nat)
    requires LanesOk(s) && TasksOk(s) && i < |s.running|
    requires s' == s.(lanes := HandleRequest(s.lanes, |s.requests|, req).0, requests := s.requests + [req],
                      pc := s'.pc, replies := s'.replies, past := s'.past)
    ensures TaskOk(s', s.running[i])
  {
    assert TaskOk(s, s.running[i]);
    OpOkGrows(s.requests, req, s.running[i].op);
  }

  lemma ReceiveKeeps(s: Sys, req: Request)
    requires Inv(s) && Enabled(s, Receive(req))
    ensures Inv(Next(s, Receive(req)))
  {
    var s' := Next(s, Receive(req));
    forall p | p in s'.lanes ensures LaneOk(s'.requests, s'.dispatched, p, s'.lanes[p]) {
      ReceiveLane(s, req, p);
    }
    forall i | 0 <= i < |s'.running| ensures TaskOk(s', s'.running[i]) {
      ReceiveTask(s, req, s', i);
    }
    forall p | p in s'.lanes && s'.lanes[p].inFlight ensures HasTask(s'.running, p) {
      assert p in s.lanes && s.lanes[p].inFlight;
    }
    forall k | 0 <= k < |s'.writes| ensures WriteOk(s', s'.writes[k]) {
      assert WriteOk(s, s.writes[k]);
    }
    forall k | 0 <= k < |s'.replies| && s'.replies[k].ok ensures Justified(s'.requests, s'.writes, s'.replies[k]) {
      assert k < |s.replies|;
      JustifiedGrows(s.requests, s'.requests, s.writes, s'.writes, s.replies[k]);
    }
  }

  // ----- a statement running

  /** The log of writes is the truth: a logged write left its snapshot in the row, whose epoch it
      matched, and without one the player's rows are as they were. */
  lemma WritesAreReal(s: Sys, i: nat, now: int, fault: Fault)
    requires Enabled(s, Execute(i, now, fault))
    ensures var s', p := Next(s, Execute(i, now, fault)), s.running[i].op.Player();
            var item := s.running[i].op.TheItem();
            if s'.writes == s.writes then Rows(s'.db, p) == Rows(s.db, p)
            else
              && p in s.db.players && s.db.players[p].epoch == item.snapshot.epoch && p in s'.db.players
              && s'.db.players[p].world == item.snapshot.world && s'.db.players[p].progress == item.snapshot.progress
              && s'.writes == s.writes + [Write(item, s.running[i].op.ExitOp?, item.snapshot.epoch)]
  {
    assert |s.writes + [Write(s.running[i].op.TheItem(), true, 0)]| != |s.writes|;
  }

  lemma ResultMeansWrite(db: Tables, now: int, op: Op, fault: Fault)
    requires ResultOf(op, Exec(db, now, Statement(op)).1, fault) && !op.IsAutosave()
    ensures fault.Clean? && WriteOf(db, op).Some?
    ensures WriteOf(db, op).value.item == op.TheItem() && WriteOf(db, op).value.isExit == op.ExitOp?
  {
  }

  /** What running the statement of task `i` changes besides the database. */
  ghost predicate ExecuteFrame(s: Sys, s': Sys, i: nat)
    requires i < |s.running|
  {
    var op := s.running[i].op;
    var own := Write(op.TheItem(), op.ExitOp?, op.TheItem().snapshot.epoch);
    && s' == s.(db := s'.db, running := s'.running, writes := s'.writes, past := s'.past)
    && |s'.running| == |s.running| && s'.running == s.running[i := Task(op, s'.running[i].result)]
    && (s'.writes == s.writes || s'.writes == s.writes + [own])
    && (s'.running[i].result == Some(true) && !op.IsAutosave() ==> s'.writes == s.writes + [own])
  }

  lemma ExecuteFrames(s: Sys, i: nat, now: int, fault: Fault)
    requires Enabled(s, Execute(i, now, fault))
    ensures ExecuteFrame(s, Next(s, Execute(i, now, fault)), i)
  {
    var s', op := Next(s, Execute(i, now, fault)), s.running[i].op;
    if s'.running[i].result == Some(true) && !op.IsAutosave() {
      ResultMeansWrite(s.db, now, op, fault);
    }
  }

  lemma ExecuteTask(s: Sys, s': Sys, i: nat, j: nat)
    requires TasksOk(s) && i < |s.running| && ExecuteFrame(s, s', i) && j < |s.running|
    ensures TaskOk(s', s'.running[j])
  {
    var op := s.running[j].op;
    assert TaskOk(s, s.running[j]);
    if s'.running[j].result == Some(true) && !op.IsAutosave() {
      if j == i {
        assert s'.writes[|s.writes|].item == op.TheItem();
      } else {
        WroteOwnGrows(s.writes, s'.writes, op);
      }
    }
  }

  lemma ExecuteWrite(s: Sys, s': Sys, i: nat, k: nat)
    requires TasksOk(s) && LogOk(s) && i < |s.running| && ExecuteFrame(s, s', i) && k < |s'.writes|
    ensures WriteOk(s', s'.writes[k])
    ensures k < |s.writes| && s.writes[k].item.snapshot.player == s.running[i].op.Player() ==>
              s.writes[k].item.arrival <= s.running[i].op.Arrival()
  {
    var op := s.running[i].op;
    assert TaskOk(s, s.running[i]);
    if k < |s.writes| {
      assert WriteOk(s, s.writes[k]);
      var d :| d in s.dispatched && d.TheItem() == s.writes[k].item;
      assert d.Player() == s.writes[k].item.snapshot.player;
    } else {
      assert op.TheItem() == s'.writes[k].item;
    }
  }

  lemma ExecuteLog(s: Sys, s': Sys, i: nat)
    requires TasksOk(s) && LogOk(s) && i < |s.running| && ExecuteFrame(s, s', i)
    ensures LogOk(s')
  {
    forall k | 0 <= k < |s'.writes| ensures WriteOk(s', s'.writes[k]) {
      ExecuteWrite(s, s', i, k);
    }
    forall j, k | 0 <= j < k < |s'.writes| && s'.writes[j].item.snapshot.player == s'.writes[k].item.snapshot.player
      ensures s'.writes[j].item.arrival <= s'.writes[k].item.arrival
    {
      if k == |s.writes| {
        ExecuteWrite(s, s', i, j);
      }
    }
  }

  lemma ExecuteTasks(s: Sys, s': Sys, i: nat)
    requires TasksOk(s) && i < |s.running| && ExecuteFrame(s, s', i)
    ensures TasksOk(s')
  {
    forall j | 0 <= j < |s'.running| ensures TaskOk(s', s'.running[j]) {
      ExecuteTask(s, s', i, j);
    }
    forall p | p in s'.lanes && s'.lanes[p].inFlight ensures HasTask(s'.running, p) {
      var k :| 0 <= k < |s.running| && s.running[k].op.Player() == p;
      assert s'.running[k].op.Player() == p;
    }
  }

  lemma ExecuteFrameKeeps(s: Sys, s': Sys, i: nat)
    requires Inv(s) && i < |s.running| && ExecuteFrame(s, s', i)
    ensures Inv(s')
  {
    ExecuteTasks(s, s', i);
    ExecuteLog(s, s', i);
    forall k | 0 <= k < |s'.replies| && s'.replies[k].ok ensures Justified(s'.requests, s'.writes, s'.replies[k]) {
      JustifiedGrows(s.requests, s'.requests, s.writes, s'.writes, s.replies[k]);
    }
  }

  lemma ExecuteKeeps(s: Sys, i: nat, now: int, fault: Fault)
    requires Inv(s) && Enabled(s, Execute(i, now, fault))
    ensures Inv(Next(s, Execute(i, now, fault)))
  {
    ExecuteFrames(s, i, now, fault);
    ExecuteFrameKeeps(s, Next(s, Execute(i, now, fault)), i);
  }

  // ----- a task completing

  /** The lane of a completed operation, if any work is left for it. */
  lemma JoinLane(reqs: seq<Request>, ds: seq<Op>, lanes: Lanes, op: Op, ok: bool, now: int)
    requires op.Player() in lanes && lanes[op.Player()].inFlight && LaneOk(reqs, ds, op.Player(), lanes[op.Player()])
    requires PendingOk(reqs, ds, op.Player(), op)
    requires lanes[op.Player()].retryAt.Some? ==> op.IsAutosave()
    requires op.Player() in HandleCompleted(lanes, op, ok, now).0
    ensures LaneOk(reqs, ds, op.Player(), HandleCompleted(lanes, op, ok, now).0[op.Player()])
  {
  }

  /** What a completion leaves alone, and the one lane it may change. */
  ghost predicate JoinFrame(s: Sys, s': Sys, i: nat)
    requires i < |s.running|
  {
    var p := s.running[i].op.Player();
    && s'.running == s.running[..i] + s.running[i + 1..]
    && s'.requests == s.requests && s'.dispatched == s.dispatched && s'.writes == s.writes
    && (forall q :: q in s'.lanes ==>
        q in s.lanes && if q == p then !s'.lanes[q].inFlight else s'.lanes[q] == s.lanes[q])
    && (forall q :: q in s.lanes && q != p ==> q in s'.lanes)
  }

  /** A completion touches only its own lane, which is then free. */
  lemma CompletedLanes(lanes: Lanes, op: Op, ok: bool, now: int, q: PlayerId)
    requires op.Player() in lanes
    ensures var lanes' := HandleCompleted(lanes, op, ok, now).0;
            && (q in lanes' ==> q in lanes && if q == op.Player() then !lanes'[q].inFlight else lanes'[q] == lanes[q])
            && (q in lanes && q != op.Player() ==> q in lanes')
  {
  }

  lemma JoinFrames(s: Sys, i: nat, now: int)
    requires TasksOk(s) && Enabled(s, Join(i, now))
    ensures JoinFrame(s, Next(s, Join(i, now)), i)
  {
    assert TaskOk(s, s.running[i]);
    var op, ok := s.running[i].op, s.running[i].result.value;
    forall q ensures var lanes' := HandleCompleted(s.lanes, op, ok, now).0;
                     && (q in lanes' ==> q in s.lanes)
                     && (q in lanes' && q in s.lanes ==>
                           if q == op.Player() then !lanes'[q].inFlight else lanes'[q] == s.lanes[q])
                     && (q in s.lanes && q != op.Player() ==> q in lanes')
    {
      CompletedLanes(s.lanes, op, ok, now, q);
    }
  }

  lemma TaskElsewhere(s: Sys, s': Sys, task: Task)
    requires TaskOk(s, task)
    requires s'.requests == s.requests && s'.dispatched == s.dispatched && s'.writes == s.writes
    requires task.op.Player() in s'.lanes && s'.lanes[task.op.Player()] == s.lanes[task.op.Player()]
    ensures TaskOk(s', task)
  {
  }

  lemma JoinTask(s: Sys, s': Sys, i: nat, j: nat)
    requires TasksOk(s) && i < |s.running| && JoinFrame(s, s', i) && j < |s'.running|
    ensures TaskOk(s', s'.running[j])
  {
    var task := s.running[if j < i then j else j + 1];
    RemovedAt(s.running, i);
    assert s'.running[j] == task && TaskOk(s, task);
    assert task.op.Player() != s.running[i].op.Player();
    TaskElsewhere(s, s', task);
  }

  lemma HasTaskLeft(running: seq<Task>, i: nat, q: PlayerId)
    requires i < |running| && running[i].op.Player() != q && HasTask(running, q)
    ensures HasTask(running[..i] + running[i + 1..], q)
  {
    var k :| 0 <= k < |running| && running[k].op.Player() == q;
    RemovedAt(running, i);
    assert (running[..i] + running[i + 1..])[if k < i then k else k - 1].op.Player() == q;
  }

  lemma JoinHasTask(s: Sys, s': Sys, i: nat, q: PlayerId)
    requires TasksOk(s) && i < |s.running| && JoinFrame(s, s', i)
    requires q in s'.lanes && s'.lanes[q].inFlight
    ensures HasTask(s'.running, q)
  {
    HasTaskLeft(s.running, i, q);
  }

  lemma JoinOnePerPlayer(running: seq<Task>, i: nat)
    requires OnePerPlayer(running) && i < |running|
    ensures OnePerPlayer(running[..i] + running[i + 1..])
  {
    RemovedAt(running, i);
  }

  lemma JoinTasks(s: Sys, s': Sys, i: nat)
    requires TasksOk(s) && i < |s.running| && JoinFrame(s, s', i)
    ensures TasksOk(s')
  {
    forall j | 0 <= j < |s'.running| ensures TaskOk(s', s'.running[j]) {
      JoinTask(s, s', i, j);
    }
    forall q | q in s'.lanes && s'.lanes[q].inFlight ensures HasTask(s'.running, q) {
      JoinHasTask(s, s', i, q);
    }
    JoinOnePerPlayer(s.running, i);
  }

  lemma JoinReply(s: Sys, i: nat, now: int, r: Reply)
    requires TasksOk(s) && Enabled(s, Join(i, now)) && r.ok
    requires r in HandleCompleted(s.lanes, s.running[i].op, s.running[i].result.value, now).1
    ensures Justified(s.requests, s.writes, r)
  {
    var op := s.running[i].op;
    assert TaskOk(s, s.running[i]);
    var k :| 0 <= k < |s.writes| && s.writes[k].item == op.TheItem() && s.writes[k].isExit == op.ExitOp?;
    assert s.writes[k].item.snapshot.player == s.requests[r.id].snapshot.player;
  }

  lemma JoinKeeps(s: Sys, i: nat, now: int)
    requires Inv(s) && Enabled(s, Join(i, now))
    ensures Inv(Next(s, Join(i, now)))
  {
    var s' := Next(s, Join(i, now));
    var task := s.running[i];
    assert TaskOk(s, task);
    JoinFrames(s, i, now);
    forall q | q in s'.lanes ensures LaneOk(s'.requests, s'.dispatched, q, s'.lanes[q]) {
      assert LaneOk(s.requests, s.dispatched, q, s.lanes[q]);
      if q == task.op.Player() {
        JoinLane(s.requests, s.dispatched, s.lanes, task.op, task.result.value, now);
      }
    }
    JoinTasks(s, s', i);
    forall k | 0 <= k < |s'.writes| ensures WriteOk(s', s'.writes[k]) {
      assert WriteOk(s, s.writes[k]);
    }
    forall k | 0 <= k < |s'.replies| && s'.replies[k].ok ensures Justified(s'.requests, s'.writes, s'.replies[k]) {
      if k >= |s.replies| {
        JoinReply(s, i, now, s'.replies[k]);
      }
    }
  }

  // ----- the dispatch loop

  /** The invariant less the program counter. */
  ghost predicate Core(s: Sys) {
    LanesOk(s) && TasksOk(s) && LogOk(s) && RepliesOk(s)
  }

  predicate CanDispatch(s: Sys, p: PlayerId) {
    p in s.lanes && !s.lanes[p].inFlight && NextDispatch(s.lanes[p]).Some?
  }

  lemma DispatchOneLane(s: Sys, p: PlayerId, q: PlayerId)
    requires Core(s) && CanDispatch(s, p) && q in s.lanes
    ensures LaneOk(s.requests, DispatchOne(s, p).dispatched, q, DispatchOne(s, p).lanes[q])
  {
    assert LaneOk(s.requests, s.dispatched, q, s.lanes[q]) && LaneOk(s.requests, s.dispatched, p, s.lanes[p]);
  }

  lemma DispatchOneTask(s: Sys, p: PlayerId, i: nat)
    requires Core(s) && CanDispatch(s, p) && i <= |s.running|
    ensures TaskOk(DispatchOne(s, p), DispatchOne(s, p).running[i])
    ensures if i < |s.running| then s.running[i].op.Player() != p else DispatchOne(s, p).running[i].op.Player() == p
  {
    assert LaneOk(s.requests, s.dispatched, p, s.lanes[p]);
    if i < |s.running| {
      assert TaskOk(s, s.running[i]);
    }
  }

  lemma DispatchOneHasTask(s: Sys, p: PlayerId, q: PlayerId)
    requires Core(s) && CanDispatch(s, p)
    requires q in DispatchOne(s, p).lanes && DispatchOne(s, p).lanes[q].inFlight
    ensures HasTask(DispatchOne(s, p).running, q)
  {
    var s' := DispatchOne(s, p);
    assert LaneOk(s.requests, s.dispatched, p, s.lanes[p]);
    if q == p {
      assert s'.running[|s.running|].op.Player() == p;
    } else {
      var k :| 0 <= k < |s.running| && s.running[k].op.Player() == q;
      assert s'.running[k].op.Player() == q;
    }
  }

  lemma DispatchOneTasks(s: Sys, p: PlayerId)
    requires Core(s) && CanDispatch(s, p) && |s.running| < MAX_CONCURRENT_SAVES
    ensures TasksOk(DispatchOne(s, p))
  {
    var s' := DispatchOne(s, p);
    forall i | 0 <= i < |s'.running|
      ensures TaskOk(s', s'.running[i])
      ensures if i < |s.running| then s'.running[i].op.Player() != p else s'.running[i].op.Player() == p
    {
      DispatchOneTask(s, p, i);
    }
    forall q | q in s'.lanes && s'.lanes[q].inFlight ensures HasTask(s'.running, q) {
      DispatchOneHasTask(s, p, q);
    }
  }

  lemma DispatchOneLog(s: Sys, p: PlayerId)
    requires Core(s) && CanDispatch(s, p)
    ensures LogOk(DispatchOne(s, p)) && RepliesOk(DispatchOne(s, p))
  {
    var s' := DispatchOne(s, p);
    assert LaneOk(s.requests, s.dispatched, p, s.lanes[p]);
    forall k | 0 <= k < |s'.writes| ensures WriteOk(s', s'.writes[k]) {
      assert WriteOk(s, s.writes[k]);
      var op :| op in s.dispatched && op.TheItem() == s.writes[k].item;
      assert op in s'.dispatched;
    }
  }

  lemma DispatchOneKeeps(s: Sys, p: PlayerId)
    requires Core(s) && CanDispatch(s, p) && |s.running| < MAX_CONCURRENT_SAVES
    ensures Core(DispatchOne(s, p))
  {
    var s' := DispatchOne(s, p);
    forall q | q in s'.lanes ensures LaneOk(s'.requests, s'.dispatched, q, s'.lanes[q]) {
      DispatchOneLane(s, p, q);
    }
    DispatchOneTasks(s, p);
    DispatchOneLog(s, p);
  }

  /** Lanes not yet in flight are still to be visited or wait for a retry. */
  ghost predicate Planned(s: Sys, order: seq<PlayerId>) {
    && (forall i :: 0 <= i < |order| ==> CanDispatch(s, order[i]))
    && (forall i, j :: 0 <= i < j < |order| ==> order[i] != order[j])
    && (forall p :: p in s.lanes ==> s.lanes[p].inFlight || p in order || Waits(s.lanes[p]))
  }

  lemma PlannedNext(s: Sys, order: seq<PlayerId>)
    requires Planned(s, order) && order != []
    ensures Planned(DispatchOne(s, order[0]), order[1..])
  {
    var s' := DispatchOne(s, order[0]);
    forall p | p in s'.lanes ensures s'.lanes[p].inFlight || p in order[1..] || Waits(s'.lanes[p]) {
      assert p in s.lanes;
      if p != order[0] && p in order {
        assert p in order[1..];
      }
    }
  }

  lemma {:induction false} DispatchAllKeeps(s: Sys, order: seq<PlayerId>)
    requires Core(s) && Planned(s, order)
    ensures Core(DispatchAll(s, order))
    ensures AllPlaced(DispatchAll(s, order).lanes, |DispatchAll(s, order).running|)
    decreases |order|
  {
    if order != [] && |s.running| < MAX_CONCURRENT_SAVES {
      assert CanDispatch(s, order[0]);
      DispatchOneKeeps(s, order[0]);
      PlannedNext(s, order);
      DispatchAllKeeps(DispatchOne(s, order[0]), order[1..]);
    }
  }

  lemma ReadyIsPlanned(s: Sys, now: int, order: seq<PlayerId>)
    requires Core(s) && ReadyOrder(s.lanes, now, order)
    ensures Planned(s, order)
  {
    forall i | 0 <= i < |order| ensures CanDispatch(s, order[i]) {
      assert order[i] in order;
    }
    forall p | p in s.lanes ensures s.lanes[p].inFlight || p in order || Waits(s.lanes[p]) {
      assert LaneOk(s.requests, s.dispatched, p, s.lanes[p]);
    }
  }

  lemma DispatchKeeps(s: Sys, now: int, order: seq<PlayerId>, deadline: Option<int>)
    requires Inv(s) && Enabled(s, Dispatch(now, order, deadline))
    ensures Inv(Next(s, Dispatch(now, order, deadline)))
  {
    ReadyIsPlanned(s, now, order);
    DispatchAllKeeps(s, order);
    var s0, s' := DispatchAll(s, order), Next(s, Dispatch(now, order, deadline));
    forall i | 0 <= i < |s'.running| ensures TaskOk(s', s'.running[i]) {
      assert TaskOk(s0, s0.running[i]);
    }
    forall k | 0 <= k < |s'.writes| ensures WriteOk(s', s'.writes[k]) {
      assert WriteOk(s0, s0.writes[k]);
    }
  }

  function Slots(s: Sys, order: seq<PlayerId>): nat
    requires |s.running| <= MAX_CONCURRENT_SAVES
  {
    if |order| < MAX_CONCURRENT_SAVES - |s.running| then |order| else MAX_CONCURRENT_SAVES - |s.running|
  }

  /** `after` is `before` with one operation for each of the first `n` players. */
  ghost predicate TakesFirst(before: seq<Op>, after: seq<Op>, order: seq<PlayerId>, n: nat) {
    && before <= after && |after| == |before| + n && n <= |order|
    && forall k :: 0 <= k < n ==> after[|before| + k].Player() == order[k]
  }

  lemma TakesFirstCons(before: seq<Op>, op: Op, after: seq<Op>, order: seq<PlayerId>, n: nat)
    requires order != [] && op.Player() == order[0] && TakesFirst(before + [op], after, order[1..], n)
    ensures TakesFirst(before, after, order, n + 1)
  {
    assert after[|before|] == op;
    forall k | 0 <= k < n + 1 ensures after[|before| + k].Player() == order[k] {
      if k > 0 {
        assert after[|before + [op]| + (k - 1)].Player() == order[1..][k - 1];
      }
    }
  }

  /** The loop dispatches the front of the order, one operation each, as far as the cap allows. */
  lemma {:induction false} DispatchTakesFirst(s: Sys, order: seq<PlayerId>)
    requires Core(s) && Planned(s, order)
    ensures TakesFirst(s.dispatched, DispatchAll(s, order).dispatched, order, Slots(s, order))
    decreases |order|
  {
    if order != [] && |s.running| < MAX_CONCURRENT_SAVES {
      var p, next := order[0], DispatchOne(s, order[0]);
      assert CanDispatch(s, p) && LaneOk(s.requests, s.dispatched, p, s.lanes[p]);
      DispatchOneKeeps(s, p);
      PlannedNext(s, order);
      DispatchTakesFirst(next, order[1..]);
      TakesFirstCons(s.dispatched, NextDispatch(s.lanes[p]).value, DispatchAll(s, order).dispatched, order,
          Slots(next, order[1..]));
    }
  }

  /** The dispatched operations are one each of the front of the order, up to the cap; a lane that may
      start and is left behind has no exit unless all of those do, and no flush unless all of those
      have an exit or a flush. */
  lemma PriorityRespected(s: Sys, now: int, order: seq<PlayerId>)
    requires Core(s) && ReadyOrder(s.lanes, now, order)
    ensures var d, n := DispatchAll(s, order).dispatched, Slots(s, order);
            && |d| == |s.dispatched| + n && (n == |order| || |s.running| + n == 8)
            && (forall k :: 0 <= k < n ==> d[|s.dispatched| + k].Player() == order[k])
            && (forall p :: p in s.lanes && MayStart(s.lanes[p], now) && p !in order[..n] ==>
                  |s.running| + n == 8
                  && forall i :: 0 <= i < n ==> order[i] in s.lanes && MayGoFirst(s.lanes[order[i]], s.lanes[p]))
  {
    var n := Slots(s, order);
    ReadyIsPlanned(s, now, order);
    DispatchTakesFirst(s, order);
    ReadyOrderExact(s.lanes, now, order);
    forall p, i | p in s.lanes && MayStart(s.lanes[p], now) && p !in order[..n] && 0 <= i < n
      ensures order[i] in s.lanes && MayGoFirst(s.lanes[order[i]], s.lanes[p])
    {
      var j :| 0 <= j < |order| && order[j] == p;
      forall k | 0 <= k < n ensures order[k] != p {
        assert order[..n][k] == order[k];
      }
      assert order[i] in order;
    }
  }

  // ----- every run

  lemma QuietKeeps(s: Sys, step: Step)
    requires Inv(s) && Enabled(s, step) && (step.Close? || step.RetryTimer? || step.Foreign?)
    ensures Inv(Next(s, step))
  {
    var s' := Next(s, step);
    forall i | 0 <= i < |s'.running| ensures TaskOk(s', s'.running[i]) {
      assert TaskOk(s, s.running[i]);
    }
    forall k | 0 <= k < |s'.writes| ensures WriteOk(s', s'.writes[k]) {
      assert WriteOk(s, s.writes[k]);
    }
  }

  lemma NextKeeps(s: Sys, step: Step)
    requires Inv(s) && Enabled(s, step)
    ensures Inv(Next(s, step))
  {
    match step {
      case Dispatch(now, order, deadline) => DispatchKeeps(s, now, order, deadline);
      case Receive(req) => ReceiveKeeps(s, req);
      case Join(i, now) => JoinKeeps(s, i, now);
      case Execute(i, now, fault) => ExecuteKeeps(s, i, now, fault);
      case _ => QuietKeeps(s, step);
    }
  }

  lemma {:induction false} RunKeeps(s: Sys, steps: seq<Step>, t: Sys)
    requires Inv(s) && Runs(s, steps, t)
    ensures Inv(t)
    decreases |steps|
  {
    if steps != [] {
      NextKeeps(s, steps[0]);
      RunKeeps(Next(s, steps[0]), steps[1..], t);
    }
  }

  /** In every reachable state, per player: operations are dispatched, and rows written, in arrival
      order, whatever fails, is retried or interleaves. */
  lemma NeverOutOfOrder(db: Tables, steps: seq<Step>, t: Sys, j: nat, k: nat)
    requires Runs(Initial(db), steps, t) && j < k
    ensures k < |t.dispatched| && t.dispatched[j].Player() == t.dispatched[k].Player() ==>
              t.dispatched[j].Arrival() <= t.dispatched[k].Arrival()
    ensures k < |t.writes| && t.writes[j].item.snapshot.player == t.writes[k].item.snapshot.player ==>
              t.writes[j].item.arrival <= t.writes[k].item.arrival
  {
    RunKeeps(Initial(db), steps, t);
  }

  lemma SomeLane(lanes: Lanes) returns (p: PlayerId)
    requires lanes != map[]
    ensures p in lanes
  {
    p :| p in lanes;
  }

  /** In every reachable state there is at most one operation in flight per player and eight in all,
      every lane has work, and no lane is forgotten at the wait point: with the receiver closed some
      other branch of the select can still fire. */
  lemma NeverStuck(db: Tables, steps: seq<Step>, t: Sys)
    requires Runs(Initial(db), steps, t)
    ensures |t.running| <= MAX_CONCURRENT_SAVES
    ensures OnePerPlayer(t.running)
    ensures forall p :: p in t.lanes ==> !IsIdle(t.lanes[p])
    ensures t.pc.Waiting? ==>
              && (forall p :: p in t.lanes ==>
                    || HasTask(t.running, p) || |t.running| == MAX_CONCURRENT_SAVES
                    || (t.lanes[p].retryAt.Some? && t.pc.deadline.Some?
                        && t.pc.deadline.value <= t.lanes[p].retryAt.value))
              && (!t.closed || t.running != [] || t.pc.deadline.Some?)
    ensures t.pc.Returned? ==> t.closed && t.running == [] && t.lanes == map[]
  {
    RunKeeps(Initial(db), steps, t);
    forall p | p in t.lanes ensures !IsIdle(t.lanes[p]) {
      assert LaneOk(t.requests, t.dispatched, p, t.lanes[p]);
    }
    if t.pc.Waiting? && t.closed && t.running == [] {
      var p := SomeLane(t.lanes);
      assert Waits(t.lanes[p]);
    }
  }

  /** An Ok to a flush means that snapshot, or one of the same player accepted later, was written
      while its epoch still matched; an Ok to an exit means that very snapshot was committed. */
  lemma RepliesAreHonest(db: Tables, steps: seq<Step>, t: Sys, r: Reply)
    requires Runs(Initial(db), steps, t) && r in t.replies && r.ok
    ensures r.id < |t.requests|
    ensures exists w :: w in t.writes && ItemOk(t.requests, w.item) && w.rowEpoch == w.item.snapshot.epoch
                        && w.item.snapshot.player == t.requests[r.id].snapshot.player
                        && if t.requests[r.id].SaveRequest? then r.id <= w.item.arrival && !w.isExit
                           else w.item == Item(t.requests[r.id].snapshot, r.id) && w.isExit
  {
    RunKeeps(Initial(db), steps, t);
    assert Justified(t.requests, t.writes, r);
    var k :|
      && 0 <= k < |t.writes| && t.writes[k].item.snapshot.player == t.requests[r.id].snapshot.player
      && (if t.requests[r.id].SaveRequest? then r.id <= t.writes[k].item.arrival && !t.writes[k].isExit
          else t.writes[k].item == Item(t.requests[r.id].snapshot, r.id) && t.writes[k].isExit);
    assert WriteOk(t, t.writes[k]);
    assert t.writes[k] in t.writes;
  }

  // ----- the fence, seen through the worker

  predicate WriteBehind(db: Tables, w: Write) {
    var p := w.item.snapshot.player;
    p in db.players && if w.isExit then w.rowEpoch < db.players[p].epoch else w.rowEpoch <= db.players[p].epoch
  }

  /** Each write happened at or before the row's present epoch, an exit strictly before it, and
      epochs never go back along the log. */
  ghost predicate FenceOk(db: Tables, ws: seq<Write>) {
    && (forall k :: 0 <= k < |ws| ==> WriteBehind(db, ws[k]))
    && (forall j, k :: 0 <= j < k < |ws| && ws[j].item.snapshot.player == ws[k].item.snapshot.player ==>
          ws[j].rowEpoch < ws[k].rowEpoch || (ws[j].rowEpoch == ws[k].rowEpoch && !ws[j].isExit))
  }

  lemma FenceAdvances(db: Tables, db': Tables, ws: seq<Write>)
    requires FenceOk(db, ws) && NeverBack(db, db')
    ensures FenceOk(db', ws)
  {
    forall k | 0 <= k < |ws| ensures WriteBehind(db', ws[k]) {
      assert WriteBehind(db, ws[k]);
    }
  }

  lemma WriteIsCurrent(db: Tables, now: int, op: Op)
    requires WriteOf(db, op).Some?
    ensures var w := WriteOf(db, op).value;
            && op.Player() in db.players && w.item.snapshot.player == op.Player()
                && w.rowEpoch == db.players[op.Player()].epoch
            && WriteBehind(Exec(db, now, Statement(op)).0, w)
  {
  }

  lemma {:induction false} DispatchLeavesDb(s: Sys, order: seq<PlayerId>)
    ensures DispatchAll(s, order).db == s.db && DispatchAll(s, order).writes == s.writes
    decreases |order|
  {
    if order != [] && |s.running| < MAX_CONCURRENT_SAVES {
      if order[0] in s.lanes && NextDispatch(s.lanes[order[0]]).Some? {
        DispatchLeavesDb(DispatchOne(s, order[0]), order[1..]);
      } else {
        DispatchLeavesDb(s, order[1..]);
      }
    }
  }

  /** A write goes behind every earlier one of its player. */
  lemma FenceExecute(db: Tables, now: int, op: Op, ws: seq<Write>)
    requires FenceOk(db, ws) && WriteOf(db, op).Some?
    ensures FenceOk(Exec(db, now, Statement(op)).0, ws + [WriteOf(db, op).value])
  {
    var db', w := Exec(db, now, Statement(op)).0, WriteOf(db, op).value;
    ExecNeverBack(db, now, Statement(op));
    FenceAdvances(db, db', ws);
    WriteIsCurrent(db, now, op);
    forall j | 0 <= j < |ws| && ws[j].item.snapshot.player == op.Player()
      ensures ws[j].rowEpoch < w.rowEpoch || (ws[j].rowEpoch == w.rowEpoch && !ws[j].isExit)
    {
      assert WriteBehind(db, ws[j]);
    }
  }

  lemma FenceStep(s: Sys, step: Step)
    requires Enabled(s, step) && FenceOk(s.db, s.writes)
    ensures FenceOk(Next(s, step).db, Next(s, step).writes)
  {
    match step {
      case Execute(i, now, fault) =>
        var op := s.running[i].op;
        if WriteOf(s.db, op).Some? && !fault.LostBefore? {
          FenceExecute(s.db, now, op, s.writes);
        } else {
          ExecNeverBack(s.db, now, Statement(op));
          FenceAdvances(s.db, Exec(s.db, now, Statement(op)).0, s.writes);
        }
      case Foreign(now, stmt) =>
        ExecNeverBack(s.db, now, stmt);
        FenceAdvances(s.db, Exec(s.db, now, stmt).0, s.writes);
      case Dispatch(_, order, _) =>
        DispatchLeavesDb(s, order);
      case _ =>
    }
  }

  lemma {:induction false} RunFenced(s: Sys, steps: seq<Step>, t: Sys)
    requires FenceOk(s.db, s.writes) && Runs(s, steps, t)
    ensures FenceOk(t.db, t.writes)
    decreases |steps|
  {
    if steps != [] {
      FenceStep(s, steps[0]);
      RunFenced(Next(s, steps[0]), steps[1..], t);
    }
  }

  /** Whatever other servers do in between, the worker never writes a player's row again at the
      epoch of an exit it committed, nor at an older one, so a late save cannot undo the exit. */
  lemma ExitEndsEpoch(db: Tables, steps: seq<Step>, t: Sys, j: nat, k: nat)
    requires Runs(Initial(db), steps, t) && j < k < |t.writes|
    requires t.writes[j].isExit && t.writes[j].item.snapshot.player == t.writes[k].item.snapshot.player
    ensures t.writes[j].item.snapshot.epoch < t.writes[k].item.snapshot.epoch
  {
    RunFenced(Initial(db), steps, t);
    RunKeeps(Initial(db), steps, t);
    assert WriteOk(t, t.writes[j]) && WriteOk(t, t.writes[k]);
  }
}
