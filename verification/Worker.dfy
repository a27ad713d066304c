/** The coalescing persistence worker: one lane per player, at most eight operations in flight. */
module Worker {
  import opened Common
  import opened Database

  const MAX_CONCURRENT_SAVES: nat := 8
  const AUTOSAVE_RETRY_DELAY: nat := 1000

  datatype Urgency = Autosave | FlushNow

  /** A snapshot with the position of its request in arrival order. */
  datatype Item = Item(snapshot: Snapshot, arrival: nat)

  datatype Request =
    | SaveRequest(snapshot: Snapshot, urgency: Urgency, wantsReply: bool)
    | ExitRequest(user: string, lease: Lease, snapshot: Snapshot)

  /** An answer on the reply channel of request number `id`. */
  datatype Reply = Reply(id: nat, ok: bool)

  datatype PendingSave = PendingSave(item: Item, urgency: Urgency, reply: Option<nat>)
  datatype PendingExit = PendingExit(user: string, lease: Lease, item: Item, reply: nat)

  datatype Lane = Lane(inFlight: bool, save: Option<PendingSave>, exit: Option<PendingExit>, retryAt: Option<int>)

  type Lanes = map<PlayerId, Lane>

  datatype Op = SaveOp(save: PendingSave) | ExitOp(exit: PendingExit) {
    function TheItem(): Item {
      if SaveOp? then save.item else exit.item
    }

    function Player(): PlayerId {
      TheItem().snapshot.player
    }

    function Arrival(): nat {
      TheItem().arrival
    }

    predicate IsAutosave() {
      SaveOp? && save.urgency.Autosave?
    }
  }

  // ----- the lane operations

  function LaneOf(lanes: Lanes, p: PlayerId): Lane {
    if p in lanes then lanes[p] else Lane(false, None, None, None)
  }

  function Coalesced(pending: Option<PendingSave>, item: Item, urgency: Urgency, reply: Option<nat>): PendingSave {
    if pending.None? then PendingSave(item, urgency, reply)
    else if urgency.Autosave? then pending.value.(item := item)
    else PendingSave(item, FlushNow, if pending.value.reply.Some? then pending.value.reply else reply)
  }

  /** `handle_request` for request number `n`. */
  function HandleRequest(lanes: Lanes, n: nat, req: Request): (Lanes, seq<Reply>) {
    var p := req.snapshot.player;
    var lane, item := LaneOf(lanes, p), Item(req.snapshot, n);
    match req
    case SaveRequest(_, urgency, wantsReply) =>
      if lane.exit.Some? then (lanes, if wantsReply then [Reply(n, false)] else [])
      else
        var refused := wantsReply && urgency.FlushNow? && lane.save.Some? && lane.save.value.reply.Some?;
        var save := Coalesced(lane.save, item, urgency, if wantsReply then Some(n) else None);
        (lanes[p := lane.(retryAt := None, save := Some(save))], if refused then [Reply(n, false)] else [])
    case ExitRequest(user, lease, _) =>
      (lanes[p := Lane(lane.inFlight, None, Some(PendingExit(user, lease, item, n)), None)], [])
  }

  /** The priority of a lane that could be dispatched now: exits, then flushes, then autosaves. */
  function ReadyPriority(lane: Lane, now: int): Option<nat> {
    if lane.inFlight then None
    else if lane.exit.Some? then Some(0)
    else if lane.save.None? then None
    else if lane.save.value.urgency.FlushNow? then Some(1)
    else if lane.retryAt.Some? && lane.retryAt.value > now then None
    else Some(2)
  }

  function Rank(lane: Lane, now: int): nat {
    var r := ReadyPriority(lane, now);
    if r.Some? then r.value else 3
  }

  /** A possible answer of `ready_player_ids`: every ready lane once, by priority. */
  ghost predicate ReadyOrder(lanes: Lanes, now: int, order: seq<PlayerId>) {
    && (forall p :: p in order <==> p in lanes && ReadyPriority(lanes[p], now).Some?)
    && (forall i, j :: 0 <= i < j < |order| ==> order[i] != order[j])
    && (forall i, j :: 0 <= i < j < |order| && order[i] in lanes && order[j] in lanes ==>
          Rank(lanes[order[i]], now) <= Rank(lanes[order[j]], now))
  }

  predicate HasFlush(lane: Lane) {
    lane.save.Some? && lane.save.value.urgency.FlushNow?
  }

  /** Nothing of the lane is in flight, and it has an exit, a flush, or an autosave that need not wait. */
  predicate MayStart(lane: Lane, now: int) {
    && !lane.inFlight
    && (lane.exit.Some? || HasFlush(lane) || (lane.save.Some? && (lane.retryAt.None? || lane.retryAt.value <= now)))
  }

  /** `b` has no exit unless `a` has, and no flush unless `a` has an exit or a flush. */
  predicate MayGoFirst(a: Lane, b: Lane) {
    (b.exit.Some? ==> a.exit.Some?) && (HasFlush(b) ==> a.exit.Some? || HasFlush(a))
  }

  ghost predicate EachOnce(order: seq<PlayerId>) {
    forall i, j :: 0 <= i < j < |order| ==> order[i] != order[j]
  }

  ghost predicate UrgentFirst(lanes: Lanes, order: seq<PlayerId>)
    requires forall p :: p in order ==> p in lanes
  {
    forall i, j :: 0 <= i < j < |order| ==> MayGoFirst(lanes[order[i]], lanes[order[j]])
  }

  lemma RankExact(lane: Lane, now: int)
    ensures ReadyPriority(lane, now).Some? <==> MayStart(lane, now)
    ensures forall b: Lane :: MayStart(lane, now) && MayStart(b, now) ==>
              (Rank(lane, now) <= Rank(b, now) <==> MayGoFirst(lane, b))
  {
  }

  /** What is ready, and in which order, from the lanes' contents: every lane that may start once, exits
      before flushes before autosaves. */
  lemma ReadyOrderExact(lanes: Lanes, now: int, order: seq<PlayerId>)
    ensures ReadyOrder(lanes, now, order) <==>
              && (forall p :: p in order <==> p in lanes && MayStart(lanes[p], now))
              && EachOnce(order) && UrgentFirst(lanes, order)
  {
    forall p | p in lanes ensures ReadyPriority(lanes[p], now).Some? <==> MayStart(lanes[p], now) {
      RankExact(lanes[p], now);
    }
    if forall p :: p in order <==> p in lanes && MayStart(lanes[p], now) {
      forall i, j | 0 <= i < j < |order|
        ensures order[i] in lanes && order[j] in lanes
        ensures MayGoFirst(lanes[order[i]], lanes[order[j]]) <==>
                  Rank(lanes[order[i]], now) <= Rank(lanes[order[j]], now)
      {
        assert order[i] in order && order[j] in order;
        RankExact(lanes[order[i]], now);
      }
    }
  }

  function NextDispatch(lane: Lane): Option<Op> {
    if lane.exit.Some? then Some(ExitOp(lane.exit.value))
    else if lane.save.Some? then Some(SaveOp(lane.save.value))
    else None
  }

  /** The lane once its operation has been taken and marked in flight. */
  function Taken(lane: Lane): Lane {
    if lane.exit.Some? then lane.(exit := None, inFlight := true) else lane.(save := None, inFlight := true)
  }

  predicate IsIdle(lane: Lane) {
    !lane.inFlight && lane.save.None? && lane.exit.None?
  }

  function Settled(lanes: Lanes, p: PlayerId, lane: Lane): Lanes {
    if IsIdle(lane) then lanes - {p} else lanes[p := lane]
  }

  function HandleCompleted(lanes: Lanes, op: Op, ok: bool, now: int): (Lanes, seq<Reply>) {
    var p := op.Player();
    if p !in lanes then (lanes, [])
    else
      var lane := lanes[p].(inFlight := false);
      match op
      case ExitOp(exit) => (Settled(lanes, p, lane), [Reply(exit.reply, ok)])
      case SaveOp(save) =>
        if save.urgency.FlushNow? then
          (Settled(lanes, p, lane), if save.reply.Some? then [Reply(save.reply.value, ok)] else [])
        else if !ok && lane.exit.None? && lane.save.None? then
          (Settled(lanes, p, lane.(save := Some(save), retryAt := Some(now + AUTOSAVE_RETRY_DELAY))), [])
        else (Settled(lanes, p, lane.(retryAt := None)), [])
  }

  predicate Waits(lane: Lane) {
    !lane.inFlight && lane.exit.None? && lane.retryAt.Some?
  }

  /** `next_retry_deadline`: the least retry time of a lane that waits for one. */
  ghost predicate IsDeadline(lanes: Lanes, deadline: Option<int>) {
    match deadline
    case None => forall p :: p in lanes ==> !Waits(lanes[p])
    case Some(d) =>
      && (exists p :: p in lanes && Waits(lanes[p]) && lanes[p].retryAt.value == d)
      && (forall p :: p in lanes && Waits(lanes[p]) ==> d <= lanes[p].retryAt.value)
  }

  // ----- the whole system

  /** A spawned task; `result` is set once its statement has run. */
  datatype Task = Task(op: Op, result: Option<bool>)

  /** A row write that took effect, with the epoch the row had. */
  datatype Write = Write(item: Item, isExit: bool, rowEpoch: int)

  datatype Pc = Top | Waiting(deadline: Option<int>) | Returned

  /** A request that was not refused, and whether it was a save that found a flush pending. */
  datatype Accepted = Accepted(id: nat, joined: bool)

  /** Per player the newest request accepted; the items whose row had a newer owner; and the items
      given up with a failed flush or exit. */
  datatype Past = Past(accepted: map<PlayerId, Accepted>, stale: seq<Item>, failed: seq<Item>)

  /** The worker and its database, with everything received, dispatched, written and answered. */
  datatype Sys = Sys(db: Tables, pc: Pc, closed: bool, lanes: Lanes, running: seq<Task>, requests: seq<Request>,
                     dispatched: seq<Op>, writes: seq<Write>, replies: seq<Reply>, past: Past)

  /** What can go wrong between the worker and the database. */
  datatype Fault = Clean | LostBefore | LostAfter

  datatype Step =
    | Dispatch(now: int, order: seq<PlayerId>, deadline: Option<int>)
    | Receive(req: Request)
    | Close
    | Join(i: nat, now: int)
    | RetryTimer(now: int)
    | Execute(i: nat, now: int, fault: Fault)
    | Foreign(now: int, stmt: Stmt)

  function Statement(op: Op): Stmt {
    if op.SaveOp? then SaveSnapshot(op.save.item.snapshot)
    else CommitExit(op.exit.user, op.exit.lease, op.exit.item.snapshot)
  }

  /** The row write the statement makes in this state, if any. */
  function WriteOf(db: Tables, op: Op): Option<Write> {
    var s := op.TheItem().snapshot;
    if s.player !in db.players then None
    else if op.SaveOp? then
      if SaveHits(db, s) then Some(Write(op.TheItem(), false, db.players[s.player].epoch)) else None
    else if ExitAllowed(db, op.exit.user, op.exit.lease, s) then
      Some(Write(op.TheItem(), true, db.players[s.player].epoch))
    else None
  }

  /** How the task turns the database's answer into its result. */
  function ResultOf(op: Op, outcome: Outcome, fault: Fault): bool {
    && fault.Clean?
    && if op.ExitOp? then outcome.Committed?
       else outcome.Saved? || (outcome.StaleOwner? && op.save.urgency.Autosave?)
  }

  // ----- what is noted of requests, statements and completions

  predicate IsRefused(lanes: Lanes, req: Request) {
    req.SaveRequest? && LaneOf(lanes, req.snapshot.player).exit.Some?
  }

  predicate JoinsFlush(lanes: Lanes, req: Request) {
    var pending := LaneOf(lanes, req.snapshot.player).save;
    req.SaveRequest? && pending.Some? && pending.value.urgency.FlushNow?
  }

  function NoteRequest(past: Past, lanes: Lanes, n: nat, req: Request): Past {
    if IsRefused(lanes, req) then past
    else past.(accepted := past.accepted[req.snapshot.player := Accepted(n, JoinsFlush(lanes, req))])
  }

  function NoteStatement(past: Past, op: Op, outcome: Outcome, fault: Fault): Past {
    if fault.Clean? && outcome.StaleOwner? then past.(stale := past.stale + [op.TheItem()]) else past
  }

  function NoteCompletion(past: Past, task: Task): Past {
    if task.result == Some(false) && !task.op.IsAutosave() then past.(failed := past.failed + [task.op.TheItem()])
    else past
  }

  // ----- steps

  function DispatchOne(s: Sys, p: PlayerId): Sys
    requires p in s.lanes && NextDispatch(s.lanes[p]).Some?
  {
    var op := NextDispatch(s.lanes[p]).value;
    s.(lanes := s.lanes[p := Taken(s.lanes[p])], running := s.running + [Task(op, None)],
        dispatched := s.dispatched + [op])
  }

  /** The dispatch loop: down the order until the cap. */
  function DispatchAll(s: Sys, order: seq<PlayerId>): Sys
    decreases |order|
  {
    if order == [] || |s.running| >= MAX_CONCURRENT_SAVES then s
    else if order[0] in s.lanes && NextDispatch(s.lanes[order[0]]).Some? then
      DispatchAll(DispatchOne(s, order[0]), order[1..])
    else DispatchAll(s, order[1..])
  }

  predicate Done(s: Sys) {
    s.closed && s.running == [] && s.lanes == map[]
  }

  ghost predicate Enabled(s: Sys, step: Step) {
    match step
    case Dispatch(now, order, deadline) =>
      s.pc.Top? && ReadyOrder(s.lanes, now, order) && IsDeadline(DispatchAll(s, order).lanes, deadline)
    case Receive(_) => s.pc.Waiting? && !s.closed
    case Close => s.pc.Waiting? && !s.closed
    case Join(i, _) => s.pc.Waiting? && i < |s.running| && s.running[i].result.Some?
    case RetryTimer(now) => s.pc.Waiting? && s.pc.deadline.Some? && s.pc.deadline.value <= now
    case Execute(i, _, _) => i < |s.running| && s.running[i].result.None?
    case Foreign(_, _) => true
  }

  ghost function Next(s: Sys, step: Step): Sys
    requires Enabled(s, step)
  {
    match step
    case Dispatch(_, order, deadline) =>
      var s' := DispatchAll(s, order);
      s'.(pc := if Done(s') then Returned else Waiting(deadline))
    case Receive(req) =>
      var (lanes, replies) := HandleRequest(s.lanes, |s.requests|, req);
      s.(pc := Top, lanes := lanes, requests := s.requests + [req], replies := s.replies + replies,
         past := NoteRequest(s.past, s.lanes, |s.requests|, req))
    case Close => s.(pc := Top, closed := true)
    case Join(i, now) =>
      var task := s.running[i];
      var (lanes, replies) := HandleCompleted(s.lanes, task.op, task.result.value, now);
      s.(pc := Top, lanes := lanes, running := s.running[..i] + s.running[i + 1..], replies := s.replies + replies,
         past := NoteCompletion(s.past, task))
    case RetryTimer(_) => s.(pc := Top)
    case Execute(i, now, fault) =>
      var op := s.running[i].op;
      var (db, outcome) := Exec(s.db, now, Statement(op));
      var w := WriteOf(s.db, op);
      s.(db := if fault.LostBefore? then s.db else db,
         running := s.running[i := Task(op, Some(ResultOf(op, outcome, fault)))],
         writes := if w.Some? && !fault.LostBefore? then s.writes + [w.value] else s.writes,
         past := NoteStatement(s.past, op, outcome, fault))
    case Foreign(now, stmt) => s.(db := Exec(s.db, now, stmt).0)
  }

  ghost function Initial(db: Tables): Sys {
    Sys(db, Top, false, map[], [], [], [], [], [], Past(map[], [], []))
  }

  /** `steps` is a possible run from `s` to `t`. */
  ghost predicate Runs(s: Sys, steps: seq<Step>, t: Sys)
    decreases |steps|
  {
    if steps == [] then s == t
    else Enabled(s, steps[0]) && Runs(Next(s, steps[0]), steps[1..], t)
  }

  lemma {:induction false} RunsSnoc(s: Sys, steps: seq<Step>, t: Sys, step: Step)
    requires Runs(s, steps, t) && Enabled(t, step)
    ensures Runs(s, steps + [step], Next(t, step))
    decreases |steps|
  {
    if steps == [] {
      assert [step][1..] == [];
    } else {
      RunsSnoc(Next(s, steps[0]), steps[1..], t, step);
      assert (steps + [step])[1..] == steps[1..] + [step];
    }
  }
}
