/** The worker's loop, written over its own lanes and tasks. */
module WorkerLoop {
  import opened Common
  import opened Database
  import opened Worker
  import opened WorkerSaves

  /** Distinct lanes in priority order. */
  ghost predicate Sorted(lanes: Lanes, now: int, order: seq<PlayerId>) {
    && (forall p :: p in order ==> p in lanes)
    && (forall i, j :: 0 <= i < j < |order| ==> order[i] != order[j])
    && (forall i, j :: 0 <= i < j < |order| ==> Rank(lanes[order[i]], now) <= Rank(lanes[order[j]], now))
  }

  lemma InsertedAt<T>(s: seq<T>, x: T, i: nat)
    requires i <= |s|
    ensures var r := s[..i] + [x] + s[i..];
            && |r| == |s| + 1 && (forall q :: q in r <==> q == x || q in s)
            && forall k :: 0 <= k < |r| ==> r[k] == if k < i then s[k] else if k == i then x else s[k - 1]
  {
    var r := s[..i] + [x] + s[i..];
    forall q | q in s ensures q in r {
      var k :| 0 <= k < |s| && s[k] == q;
      assert r[if k < i then k else k + 1] == q;
    }
  }

  lemma InsertOrdered(lanes: Lanes, now: int, order: seq<PlayerId>, p: PlayerId, i: nat, a: nat, b: nat)
    requires Sorted(lanes, now, order) && p in lanes && p !in order && i <= |order|
    requires forall k :: 0 <= k < i ==> Rank(lanes[order[k]], now) <= Rank(lanes[p], now)
    requires i < |order| ==> Rank(lanes[p], now) < Rank(lanes[order[i]], now)
    requires a < b <= |order|
    ensures var r := order[..i] + [p] + order[i..];
            r[a] in lanes && r[b] in lanes && r[a] != r[b] && Rank(lanes[r[a]], now) <= Rank(lanes[r[b]], now)
  {
    InsertedAt(order, p, i);
    if a == i {
      assert order[b - 1] in order && Rank(lanes[order[i]], now) <= Rank(lanes[order[b - 1]], now);
    } else if b == i {
      assert order[a] in order;
    } else {
      var a', b' := if a < i then a else a - 1, if b < i then b else b - 1;
      assert order[a'] in order && order[b'] in order && order[a'] != order[b'];
    }
  }

  lemma InsertSorted(lanes: Lanes, now: int, order: seq<PlayerId>, p: PlayerId, i: nat)
    requires Sorted(lanes, now, order) && p in lanes && p !in order && i <= |order|
    requires forall k :: 0 <= k < i ==> Rank(lanes[order[k]], now) <= Rank(lanes[p], now)
    requires i < |order| ==> Rank(lanes[p], now) < Rank(lanes[order[i]], now)
    ensures var r := order[..i] + [p] + order[i..];
            Sorted(lanes, now, r) && forall q :: q in r <==> q == p || q in order
  {
    var r := order[..i] + [p] + order[i..];
    InsertedAt(order, p, i);
    forall a, b | 0 <= a < b < |r| ensures r[a] != r[b] && Rank(lanes[r[a]], now) <= Rank(lanes[r[b]], now) {
      InsertOrdered(lanes, now, order, p, i, a, b);
    }
  }

  /** One turn of the dispatch loop. */
  lemma DispatchNext(s: Sys, ids: seq<PlayerId>, i: nat)
    requires i < |ids| && |s.running| < MAX_CONCURRENT_SAVES
    ensures var p := ids[i];
            DispatchAll(s, ids[i..]) ==
              DispatchAll(if p in s.lanes && NextDispatch(s.lanes[p]).Some? then DispatchOne(s, p) else s, ids[i + 1..])
  {
    assert ids[i..][1..] == ids[i + 1..];
  }

  /** A branch of the worker's select, or a step of the world around it, that can happen now. */
  predicate CanWake(s: Sys, step: Step) {
    match step
    case Dispatch(_, _, _) => false
    case Receive(_) => s.pc.Waiting? && !s.closed
    case Close => s.pc.Waiting? && !s.closed
    case Join(i, _) => s.pc.Waiting? && i < |s.running| && s.running[i].result.Some?
    case RetryTimer(now) => s.pc.Waiting? && s.pc.deadline.Some? && s.pc.deadline.value <= now
    case Execute(i, _, _) => i < |s.running| && s.running[i].result.None?
    case Foreign(_, _) => true
  }

  /** The worker with its lanes and tasks, the database it shares, and a record of what passed. */
  class PersistenceWorker {
    var db: Tables
    var pc: Pc
    var closed: bool
    var lanes: Lanes
    var running: seq<Task>
    var requests: seq<Request>
    var dispatched: seq<Op>
    var writes: seq<Write>
    var replies: seq<Reply>
    var past: Past

    function View(): Sys
      reads this
    {
      Sys(db, pc, closed, lanes, running, requests, dispatched, writes, replies, past)
    }

    ghost predicate Valid()
      reads this
    {
      WorkerOk(View())
    }

    constructor (tables: Tables)
      ensures Valid() && View() == Initial(tables)
    {
      db, pc, closed, lanes, running := tables, Top, false, map[], [];
      requests, dispatched, writes, replies, past := [], [], [], [], Past(map[], [], []);
      new;
      InitialOk(tables);
    }

    method Handle(n: nat, req: Request) returns (replies: seq<Reply>)
      modifies this`lanes
      ensures (lanes, replies) == HandleRequest(old(lanes), n, req)
    {
      var p, item := req.snapshot.player, Item(req.snapshot, n);
      var lane := LaneOf(lanes, p);
      replies := [];
      match req {
        case SaveRequest(_, urgency, wantsReply) =>
          var reply := if wantsReply then Some(n) else None;
          if lane.exit.Some? {
            if wantsReply {
              replies := [Reply(n, false)];
            }
            return;
          }
          lane := lane.(retryAt := None);
          if lane.save.Some? {
            var pending := lane.save.value.(item := item);
            if urgency.FlushNow? {
              pending := pending.(urgency := FlushNow);
              if wantsReply {
                if pending.reply.Some? {
                  replies := [Reply(n, false)];
                } else {
                  pending := pending.(reply := reply);
                }
              }
            }
            lane := lane.(save := Some(pending));
          } else {
            lane := lane.(save := Some(PendingSave(item, urgency, reply)));
          }
        case ExitRequest(user, lease, _) =>
          lane := lane.(save := None);
          lane := lane.(retryAt := None);
          lane := lane.(exit := Some(PendingExit(user, lease, item, n)));
      }
      lanes := lanes[p := lane];
    }

    /** Keeps the collected lanes sorted; lanes of equal priority come in any order. */
    method InsertByPriority(order: seq<PlayerId>, now: int, p: PlayerId) returns (r: seq<PlayerId>)
      requires Sorted(lanes, now, order) && p in lanes && p !in order
      ensures Sorted(lanes, now, r) && forall q :: q in r <==> q == p || q in order
    {
      var i := 0;
      while i < |order| && Rank(lanes[order[i]], now) <= Rank(lanes[p], now)
        invariant 0 <= i <= |order|
        invariant forall k :: 0 <= k < i ==> Rank(lanes[order[k]], now) <= Rank(lanes[p], now)
      {
        i := i + 1;
      }
      r := order[..i] + [p] + order[i..];
      InsertSorted(lanes, now, order, p, i);
    }

    /** Collects the ready lanes and orders them by priority. */
    method ReadyPlayerIds(now: int) returns (order: seq<PlayerId>)
      ensures ReadyOrder(lanes, now, order)
    {
      order := [];
      var todo := lanes.Keys;
      while todo != {}
        invariant todo <= lanes.Keys
        invariant forall p :: p in order <==> p in lanes && p !in todo && ReadyPriority(lanes[p], now).Some?
        invariant Sorted(lanes, now, order)
        decreases todo
      {
        var p :| p in todo;
        todo := todo - {p};
        if ReadyPriority(lanes[p], now).Some? {
          order := InsertByPriority(order, now, p);
        }
      }
    }

    /** Takes the lane's next operation and spawns a task for it. */
    method SpawnNext(p: PlayerId)
      requires p in lanes && NextDispatch(lanes[p]).Some?
      modifies this`lanes, this`running, this`dispatched
      ensures View() == DispatchOne(old(View()), p)
    {
      var op := NextDispatch(lanes[p]).value;
      lanes := lanes[p := Taken(lanes[p])];
      running := running + [Task(op, None)];
      dispatched := dispatched + [op];
    }

    /** Down the order until the cap. */
    method DispatchInOrder(ids: seq<PlayerId>)
      requires |running| <= MAX_CONCURRENT_SAVES
      modifies this`lanes, this`running, this`dispatched
      ensures View() == DispatchAll(old(View()), ids) && |running| <= MAX_CONCURRENT_SAVES
    {
      ghost var goal := DispatchAll(View(), ids);
      var i := 0;
      assert ids[0..] == ids;
      while i < |ids| && |running| < MAX_CONCURRENT_SAVES
        invariant 0 <= i <= |ids| && |running| <= MAX_CONCURRENT_SAVES
        invariant DispatchAll(View(), ids[i..]) == goal
      {
        DispatchNext(View(), ids, i);
        if ids[i] in lanes && NextDispatch(lanes[ids[i]]).Some? {
          SpawnNext(ids[i]);
        }
        i := i + 1;
      }
    }

    method DispatchReadyOps(now: int) returns (ghost order: seq<PlayerId>)
      requires |running| <= MAX_CONCURRENT_SAVES
      modifies this`lanes, this`running, this`dispatched
      ensures ReadyOrder(old(lanes), now, order)
      ensures View() == DispatchAll(old(View()), order) && |running| <= MAX_CONCURRENT_SAVES
    {
      var ids := ReadyPlayerIds(now);
      order := ids;
      DispatchInOrder(ids);
    }

    method HandleCompletedDispatch(op: Op, ok: bool, now: int) returns (replies: seq<Reply>)
      modifies this`lanes
      ensures (lanes, replies) == HandleCompleted(old(lanes), op, ok, now)
    {
      var p := op.Player();
      replies := [];
      if p !in lanes {
        return;
      }
      var lane := lanes[p].(inFlight := false);
      match op {
        case SaveOp(save) =>
          if save.urgency.Autosave? {
            if !ok && lane.exit.None? && lane.save.None? {
              lane := lane.(save := Some(save), retryAt := Some(now + AUTOSAVE_RETRY_DELAY));
            } else {
              lane := lane.(retryAt := None);
            }
          } else if save.reply.Some? {
            replies := [Reply(save.reply.value, ok)];
          }
        case ExitOp(exit) =>
          replies := [Reply(exit.reply, ok)];
      }
      if IsIdle(lane) {
        lanes := lanes - {p};
      } else {
        lanes := lanes[p := lane];
      }
    }

    method NextRetryDeadline() returns (deadline: Option<int>)
      ensures IsDeadline(lanes, deadline)
    {
      deadline := None;
      var todo := lanes.Keys;
      while todo != {}
        invariant todo <= lanes.Keys
        invariant forall p :: p in lanes && p !in todo && Waits(lanes[p]) ==>
                    deadline.Some? && deadline.value <= lanes[p].retryAt.value
        invariant deadline.Some? ==>
                    exists p :: p in lanes && Waits(lanes[p]) && lanes[p].retryAt.value == deadline.value
        decreases todo
      {
        var p :| p in todo;
        todo := todo - {p};
        if Waits(lanes[p]) && (deadline.None? || lanes[p].retryAt.value < deadline.value) {
          deadline := lanes[p].retryAt;
        }
      }
    }

    /** The top of the loop: dispatch, then return or wait with the next deadline. */
    method Turn(now: int) returns (ghost step: Step)
      requires Valid() && pc.Top?
      modifies this
      ensures Valid() && step.Dispatch? && Enabled(old(View()), step) && View() == Next(old(View()), step)
    {
      ghost var before := View();
      ghost var order := DispatchReadyOps(now);
      var deadline := NextRetryDeadline();
      step := Dispatch(now, order, deadline);
      NextOk(before, step);
      pc := if closed && running == [] && lanes == map[] then Returned else Waiting(deadline);
    }

    method TakeRequest(req: Request)
      requires pc.Waiting? && !closed
      modifies this`lanes, this`requests, this`replies, this`pc, this`past
      ensures View() == Next(old(View()), Receive(req))
    {
      past := NoteRequest(past, lanes, |requests|, req);
      var more := Handle(|requests|, req);
      requests, replies, pc := requests + [req], replies + more, Top;
    }

    method TakeResult(i: nat, now: int)
      requires pc.Waiting? && i < |running| && running[i].result.Some?
      modifies this`lanes, this`running, this`replies, this`pc, this`past
      ensures View() == Next(old(View()), Join(i, now))
    {
      var task := running[i];
      running := running[..i] + running[i + 1..];
      past := NoteCompletion(past, task);
      var more := HandleCompletedDispatch(task.op, task.result.value, now);
      replies, pc := replies + more, Top;
    }

    /** A spawned task runs its statement against the database. */
    method RunTask(i: nat, now: int, fault: Fault)
      requires i < |running| && running[i].result.None?
      modifies this`db, this`running, this`writes, this`past
      ensures View() == Next(old(View()), Execute(i, now, fault))
    {
      var op := running[i].op;
      var (after, outcome) := Exec(db, now, Statement(op));
      var write := WriteOf(db, op);
      past := NoteStatement(past, op, outcome, fault);
      running := running[i := Task(op, Some(ResultOf(op, outcome, fault)))];
      if !fault.LostBefore? {
        db := after;
        if write.Some? {
          writes := writes + [write.value];
        }
      }
    }

    /** One branch of the select, or one step of a task or another server. */
    method Wake(step: Step)
      requires Valid() && CanWake(View(), step)
      modifies this
      ensures Valid() && Enabled(old(View()), step) && View() == Next(old(View()), step)
    {
      NextOk(View(), step);
      match step {
        case Receive(req) =>
          TakeRequest(req);
        case Close =>
          closed, pc := true, Top;
        case Join(i, now) =>
          TakeResult(i, now);
        case RetryTimer(_) =>
          pc := Top;
        case Execute(i, now, fault) =>
          RunTask(i, now, fault);
        case Foreign(now, stmt) =>
          db := Exec(db, now, stmt).0;
      }
    }

    /** The worker's loop over whatever happens around it; what cannot happen yet is passed over. */
    method Work(schedule: seq<Step>) returns (ghost trace: seq<Step>)
      requires Valid()
      modifies this
      ensures Valid() && Runs(old(View()), trace, View())
    {
      trace := [];
      for i := 0 to |schedule|
        invariant Valid() && Runs(old(View()), trace, View())
      {
        ghost var before := View();
        if schedule[i].Dispatch? && pc.Top? {
          ghost var step := Turn(schedule[i].now);
          RunsSnoc(old(View()), trace, before, step);
          trace := trace + [step];
        } else if CanWake(View(), schedule[i]) {
          Wake(schedule[i]);
          RunsSnoc(old(View()), trace, before, schedule[i]);
          trace := trace + [schedule[i]];
        }
      }
    }
  }
}
