/** A player's outbox: a reliable queue, coalesced latest movements, and a remote movement queue. */
module Outbox {
  type EntityId = nat

  /** A movement event; `detail` stands for every field but the entity. */
  datatype Movement = Movement(entity: EntityId, detail: int)

  type Event = int

  datatype Queues = Queues(events: seq<Event>, latest: map<EntityId, Movement>, remote: seq<Movement>)

  /** Everything ever pushed, and everything the channel has accepted. */
  datatype History = History(pushed: seq<Event>, moves: seq<Movement>, sentEvents: seq<Event>, sentMoves: seq<Movement>)

  // ----- subsequences

  ghost predicate Embeds<T>(f: seq<nat>, a: seq<T>, b: seq<T>) {
    && |f| == |a|
    && (forall i :: 0 <= i < |f| ==> f[i] < |b| && b[f[i]] == a[i])
    && (forall i, j :: 0 <= i < j < |f| ==> f[i] < f[j])
  }

  /** `a` is `b` with some elements left out, in the same order. */
  ghost predicate Subsequence<T>(a: seq<T>, b: seq<T>) {
    exists f: seq<nat> :: Embeds(f, a, b)
  }

  lemma SubsequenceSnoc<T>(a: seq<T>, b: seq<T>, x: T)
    requires Subsequence(a, b)
    ensures Subsequence(a, b + [x]) && Subsequence(a + [x], b + [x])
  {
    var f: seq<nat> :| Embeds(f, a, b);
    assert Embeds(f, a, b + [x]);
    assert Embeds(f + [|b|], a + [x], b + [x]);
  }

  lemma SubsequencePart<T>(a: seq<T>, mid: seq<T>, c: seq<T>, b: seq<T>)
    requires Subsequence(a + mid + c, b)
    ensures Subsequence(a + c, b)
  {
    var f: seq<nat> :| Embeds(f, a + mid + c, b);
    var g := f[..|a|] + f[|a| + |mid|..];
    assert Embeds(g, a + c, b) by {
      forall i | 0 <= i < |g| ensures g[i] < |b| && b[g[i]] == (a + c)[i] {
        var k := if i < |a| then i else i + |mid|;
        assert g[i] == f[k] && (a + c)[i] == (a + mid + c)[k];
      }
    }
  }

  // ----- movements of one entity

  function Of(e: EntityId, ms: seq<Movement>): seq<Movement> {
    if ms == [] then []
    else if ms[|ms| - 1].entity == e then Of(e, ms[..|ms| - 1]) + [ms[|ms| - 1]]
    else Of(e, ms[..|ms| - 1])
  }

  lemma OfSnoc(e: EntityId, ms: seq<Movement>, m: Movement)
    ensures Of(e, ms + [m]) == if m.entity == e then Of(e, ms) + [m] else Of(e, ms)
  {
    assert (ms + [m])[..|ms|] == ms;
  }

  lemma {:induction false} OfHead(e: EntityId, ms: seq<Movement>)
    requires ms != []
    ensures Of(e, ms) == if ms[0].entity == e then [ms[0]] + Of(e, ms[1..]) else Of(e, ms[1..])
    decreases |ms|
  {
    if |ms| > 1 {
      var init := ms[..|ms| - 1];
      OfHead(e, init);
      assert init[1..] == ms[1..][..|ms| - 2];
    }
  }

  function Without(e: EntityId, ms: seq<Movement>): seq<Movement> {
    if ms == [] then []
    else if ms[|ms| - 1].entity != e then Without(e, ms[..|ms| - 1]) + [ms[|ms| - 1]]
    else Without(e, ms[..|ms| - 1])
  }

  lemma {:induction false} OfWithout(e: EntityId, gone: EntityId, ms: seq<Movement>)
    ensures Of(e, Without(gone, ms)) == if e == gone then [] else Of(e, ms)
    decreases |ms|
  {
    if ms != [] {
      var init, m := ms[..|ms| - 1], ms[|ms| - 1];
      OfWithout(e, gone, init);
      OfSnoc(e, Without(gone, init), m);
    }
  }

  /** What is queued for an entity, in the order it will be sent. */
  function Pending(q: Queues, e: EntityId): seq<Movement> {
    if e in q.latest then [q.latest[e]] + Of(e, q.remote) else Of(e, q.remote)
  }

  function SentOrPending(q: Queues, h: History, e: EntityId): seq<Movement> {
    Of(e, h.sentMoves) + Pending(q, e)
  }

  ghost predicate EntityOk(q: Queues, h: History, e: EntityId) {
    var out, pushed := SentOrPending(q, h, e), Of(e, h.moves);
    && (e in q.latest ==> q.latest[e].entity == e)
    && Subsequence(out, pushed)
    && (pushed != [] ==> out != [] && out[|out| - 1] == pushed[|pushed| - 1])
  }

  /** Reliable events: sent followed by queued is exactly what was pushed.  Movements: what was or
      will be sent for an entity is in the order pushed and ends with the newest one. */
  ghost predicate Kept(q: Queues, h: History) {
    && h.sentEvents + q.events == h.pushed
    && forall e :: EntityOk(q, h, e)
  }

  // ----- pushes

  function PushReliable(q: Queues, event: Event): Queues {
    q.(events := q.events + [event])
  }

  function PushRemote(q: Queues, m: Movement): Queues {
    if q.remote != [] && q.remote[|q.remote| - 1] == m then q else q.(remote := q.remote + [m])
  }

  function SetLatest(q: Queues, m: Movement, prioritize: bool): Queues {
    if prioritize then q.(remote := Without(m.entity, q.remote), latest := q.latest[m.entity := m])
    else PushRemote(q.(latest := q.latest - {m.entity}), m)
  }

  lemma PushReliableKeeps(q: Queues, h: History, event: Event)
    requires Kept(q, h)
    ensures Kept(PushReliable(q, event), h.(pushed := h.pushed + [event]))
  {
    assert h.sentEvents + (q.events + [event]) == h.sentEvents + q.events + [event];
    forall e ensures EntityOk(PushReliable(q, event), h.(pushed := h.pushed + [event]), e) {
      assert EntityOk(q, h, e);
    }
  }

  function Moved(h: History, m: Movement): History {
    h.(moves := h.moves + [m])
  }

  lemma EndsWith<T>(a: seq<T>, b: seq<T>, x: T)
    ensures a + b + [x] == a + (b + [x])
    ensures b != [] && b[|b| - 1] == x ==> a + b != [] && (a + b)[|a + b| - 1] == x
  {
  }

  /** A remote push leaves the queue of its entity as it is, ending with the movement, or extends it. */
  lemma RemotePending(q: Queues, m: Movement)
    ensures var was, now := Pending(q, m.entity), Pending(PushRemote(q, m), m.entity);
            now == was + [m] || (now == was && was != [] && was[|was| - 1] == m)
  {
    var e := m.entity;
    OfSnoc(e, q.remote, m);
    if PushRemote(q, m).remote == q.remote {
      assert Of(e, q.remote) == Of(e, q.remote[..|q.remote| - 1]) + [m];
    } else if e in q.latest {
      assert [q.latest[e]] + (Of(e, q.remote) + [m]) == [q.latest[e]] + Of(e, q.remote) + [m];
    }
  }

  /** Whatever is still queued for the entity may be dropped as long as `m` ends the queue. */
  lemma EntityPushed(q: Queues, q': Queues, h: History, m: Movement, keep: seq<Movement>)
    requires EntityOk(q, h, m.entity)
    requires Subsequence(Of(m.entity, h.sentMoves) + keep, Of(m.entity, h.moves))
    requires || Pending(q', m.entity) == keep + [m]
             || (Pending(q', m.entity) == keep && keep != [] && keep[|keep| - 1] == m)
    requires m.entity in q'.latest ==> q'.latest[m.entity].entity == m.entity
    ensures EntityOk(q', Moved(h, m), m.entity)
  {
    var e := m.entity;
    var sent, pushed := Of(e, h.sentMoves), Of(e, h.moves);
    OfSnoc(e, h.moves, m);
    SubsequenceSnoc(sent + keep, pushed, m);
    EndsWith(sent, keep, m);
  }

  lemma EntityUntouched(q: Queues, q': Queues, h: History, m: Movement, e: EntityId)
    requires EntityOk(q, h, e) && e != m.entity && Pending(q', e) == Pending(q, e)
    requires e in q'.latest ==> q'.latest[e].entity == e
    ensures EntityOk(q', Moved(h, m), e)
  {
    OfSnoc(e, h.moves, m);
  }

  lemma PushedEntity(q: Queues, h: History, m: Movement)
    requires EntityOk(q, h, m.entity)
    ensures EntityOk(PushRemote(q, m), Moved(h, m), m.entity)
  {
    RemotePending(q, m);
    EntityPushed(q, PushRemote(q, m), h, m, Pending(q, m.entity));
  }

  lemma PushRemoteEntity(q: Queues, h: History, m: Movement, e: EntityId)
    requires Kept(q, h)
    ensures EntityOk(PushRemote(q, m), Moved(h, m), e)
  {
    assert EntityOk(q, h, e);
    if e == m.entity {
      PushedEntity(q, h, m);
    } else {
      OfSnoc(e, q.remote, m);
      EntityUntouched(q, PushRemote(q, m), h, m, e);
    }
  }

  /** The queue ends with the movement, once: it is the queue it was if that ended with it, and otherwise
      one longer. */
  lemma PushRemoteKeeps(q: Queues, h: History, m: Movement)
    requires Kept(q, h)
    ensures Kept(PushRemote(q, m), Moved(h, m))
    ensures var r := PushRemote(q, m).remote;
            && r != [] && r[|r| - 1] == m && q.remote <= r && |r| <= |q.remote| + 1
            && (q.remote != [] && q.remote[|q.remote| - 1] == m ==> r == q.remote)
  {
    forall e ensures EntityOk(PushRemote(q, m), Moved(h, m), e) {
      PushRemoteEntity(q, h, m, e);
    }
  }

  lemma PrioritizedEntity(q: Queues, h: History, m: Movement)
    requires EntityOk(q, h, m.entity)
    ensures EntityOk(SetLatest(q, m, true), Moved(h, m), m.entity)
  {
    var e := m.entity;
    var sent := Of(e, h.sentMoves);
    OfWithout(e, e, q.remote);
    assert sent + Pending(q, e) + [] == sent + Pending(q, e);
    SubsequencePart(sent, Pending(q, e), [], Of(e, h.moves));
    assert Pending(SetLatest(q, m, true), e) == [] + [m];
    EntityPushed(q, SetLatest(q, m, true), h, m, []);
  }

  lemma UnprioritizedEntity(q: Queues, h: History, m: Movement)
    requires EntityOk(q, h, m.entity)
    ensures EntityOk(SetLatest(q, m, false), Moved(h, m), m.entity)
  {
    var e, rest := m.entity, q.(latest := q.latest - {m.entity});
    var sent, keep := Of(e, h.sentMoves), Pending(rest, m.entity);
    if e in q.latest {
      assert sent + [q.latest[e]] + keep == sent + Pending(q, e);
      SubsequencePart(sent, [q.latest[e]], keep, Of(e, h.moves));
    }
    RemotePending(rest, m);
    EntityPushed(q, PushRemote(rest, m), h, m, keep);
  }

  lemma SetLatestEntity(q: Queues, h: History, m: Movement, prioritize: bool, e: EntityId)
    requires Kept(q, h)
    ensures EntityOk(SetLatest(q, m, prioritize), Moved(h, m), e)
  {
    assert EntityOk(q, h, e);
    if e != m.entity {
      OfWithout(e, m.entity, q.remote);
      OfSnoc(e, q.remote, m);
      EntityUntouched(q, SetLatest(q, m, prioritize), h, m, e);
    } else if prioritize {
      PrioritizedEntity(q, h, m);
    } else {
      UnprioritizedEntity(q, h, m);
    }
  }

  lemma SetLatestKeeps(q: Queues, h: History, m: Movement, prioritize: bool)
    requires Kept(q, h)
    ensures Kept(SetLatest(q, m, prioritize), Moved(h, m))
  {
    forall e ensures EntityOk(SetLatest(q, m, prioritize), Moved(h, m), e) {
      SetLatestEntity(q, h, m, prioritize, e);
    }
  }

  // ----- sends the channel accepts

  lemma SendReliableKeeps(q: Queues, h: History)
    requires Kept(q, h) && q.events != []
    ensures Kept(q.(events := q.events[1..]), h.(sentEvents := h.sentEvents + [q.events[0]]))
  {
    var q', h' := q.(events := q.events[1..]), h.(sentEvents := h.sentEvents + [q.events[0]]);
    assert h.sentEvents + [q.events[0]] + q.events[1..] == h.sentEvents + q.events;
    forall e ensures EntityOk(q', h', e) {
      assert EntityOk(q, h, e);
    }
  }

  /** A movement that moves from the head of what is pending to the end of what was sent. */
  lemma SentFromHead(q: Queues, q': Queues, h: History, m: Movement, e: EntityId)
    requires Pending(q, e) == if m.entity == e then [m] + Pending(q', e) else Pending(q', e)
    ensures SentOrPending(q', h.(sentMoves := h.sentMoves + [m]), e) == SentOrPending(q, h, e)
  {
    OfSnoc(e, h.sentMoves, m);
  }

  lemma SendMovement(q: Queues, q': Queues, h: History, m: Movement, e: EntityId)
    requires EntityOk(q, h, e)
    requires Pending(q, e) == if m.entity == e then [m] + Pending(q', e) else Pending(q', e)
    requires e in q'.latest ==> q'.latest[e].entity == e
    ensures EntityOk(q', h.(sentMoves := h.sentMoves + [m]), e)
  {
    SentFromHead(q, q', h, m, e);
  }

  lemma SendLatestKeeps(q: Queues, h: History, k: EntityId)
    requires Kept(q, h) && k in q.latest
    ensures Kept(q.(latest := q.latest - {k}), h.(sentMoves := h.sentMoves + [q.latest[k]]))
  {
    var q', h' := q.(latest := q.latest - {k}), h.(sentMoves := h.sentMoves + [q.latest[k]]);
    forall e ensures EntityOk(q', h', e) {
      assert EntityOk(q, h, e) && EntityOk(q, h, k);
      SendMovement(q, q', h, q.latest[k], e);
    }
  }

  /** Sound only because the remote queue is flushed with no coalesced movement left ahead of it. */
  lemma SendRemoteKeeps(q: Queues, h: History)
    requires Kept(q, h) && q.latest == map[] && q.remote != []
    ensures Kept(q.(remote := q.remote[1..]), h.(sentMoves := h.sentMoves + [q.remote[0]]))
  {
    var q', h' := q.(remote := q.remote[1..]), h.(sentMoves := h.sentMoves + [q.remote[0]]);
    forall e ensures EntityOk(q', h', e) {
      assert EntityOk(q, h, e);
      OfHead(e, q.remote);
      SendMovement(q, q', h, q.remote[0], e);
    }
  }

  // ----- runs

  datatype Act =
    | DoPush(event: Event)
    | DoLatest(m: Movement, prioritize: bool)
    | DoRemote(m: Movement)
    | SendEvent
    | SendLatest(k: EntityId)
    | SendRemote

  /** A send happens only where a flush would attempt it. */
  predicate Enabled(q: Queues, act: Act) {
    match act
    case SendEvent => q.events != []
    case SendLatest(k) => k in q.latest
    case SendRemote => q.latest == map[] && q.remote != []
    case _ => true
  }

  function Perform(q: Queues, h: History, act: Act): (Queues, History)
    requires Enabled(q, act)
  {
    match act
    case DoPush(event) => (PushReliable(q, event), h.(pushed := h.pushed + [event]))
    case DoLatest(m, prioritize) => (SetLatest(q, m, prioritize), Moved(h, m))
    case DoRemote(m) => (PushRemote(q, m), Moved(h, m))
    case SendEvent => (q.(events := q.events[1..]), h.(sentEvents := h.sentEvents + [q.events[0]]))
    case SendLatest(k) => (q.(latest := q.latest - {k}), h.(sentMoves := h.sentMoves + [q.latest[k]]))
    case SendRemote => (q.(remote := q.remote[1..]), h.(sentMoves := h.sentMoves + [q.remote[0]]))
  }

  /** `acts` leads from one state to another. */
  ghost predicate Leads(q: Queues, h: History, acts: seq<Act>, q': Queues, h': History)
    decreases |acts|
  {
    if acts == [] then q' == q && h' == h
    else
      && Enabled(q, acts[0])
      && var (q1, h1) := Perform(q, h, acts[0]);
         Leads(q1, h1, acts[1..], q', h')
  }

  lemma PerformKeeps(q: Queues, h: History, act: Act)
    requires Kept(q, h) && Enabled(q, act)
    ensures Kept(Perform(q, h, act).0, Perform(q, h, act).1)
  {
    match act {
      case DoPush(event) => PushReliableKeeps(q, h, event);
      case DoLatest(m, prioritize) => SetLatestKeeps(q, h, m, prioritize);
      case DoRemote(m) => PushRemoteKeeps(q, h, m);
      case SendEvent => SendReliableKeeps(q, h);
      case SendLatest(k) => SendLatestKeeps(q, h, k);
      case SendRemote => SendRemoteKeeps(q, h);
    }
  }

  /** Whatever is pushed and however sends and refusals interleave, nothing reliable is lost,
      repeated or reordered, and no entity's newest movement is forgotten. */
  lemma {:induction false} RunKeeps(q: Queues, h: History, acts: seq<Act>, q': Queues, h': History)
    requires Kept(q, h) && Leads(q, h, acts, q', h')
    ensures Kept(q', h')
    decreases |acts|
  {
    if acts != [] {
      PerformKeeps(q, h, acts[0]);
      var (q1, h1) := Perform(q, h, acts[0]);
      RunKeeps(q1, h1, acts[1..], q', h');
    }
  }

  // ----- the outbox

  datatype SendResult = Sent | Full | Closed

  datatype FlushOutcome = Complete | Blocked | Gone

  datatype Stats = Stats(sentReliable: nat, sentMovement: nat, total: nat)

  class PlayerOutbox {
    var events: seq<Event>
    var latest: map<EntityId, Movement>
    var remote: seq<Movement>
    ghost var history: History
    /** What the channel has answered so far. */
    ghost var answers: seq<SendResult>
    /** Whether the receiver is known to be gone; it never comes back. */
    var closed: bool

    ghost function View(): Queues
      reads this
    {
      Queues(events, latest, remote)
    }

    /** Until the receiver goes away nothing is lost. */
    ghost predicate Valid()
      reads this
    {
      !closed ==> Kept(View(), history)
    }

    constructor ()
      ensures Valid() && !closed && View() == Queues([], map[], []) && history == History([], [], [], [])
      ensures answers == []
    {
      events, latest, remote := [], map[], [];
      history, answers, closed := History([], [], [], []), [], false;
      new;
      forall e ensures EntityOk(View(), history, e) {
        var none: seq<Movement> := [];
        assert Embeds([], none, none);
      }
    }

    method PushReliableEvent(event: Event)
      requires Valid()
      modifies this
      ensures Valid() && closed == old(closed) && answers == old(answers) && View() == PushReliable(old(View()), event)
      ensures history == old(history).(pushed := old(history).pushed + [event])
    {
      if !closed {
        PushReliableKeeps(View(), history, event);
      }
      events := events + [event];
      history := history.(pushed := history.pushed + [event]);
    }

    method SetLatestMovementWithPriority(m: Movement, prioritize: bool)
      requires Valid()
      modifies this
      ensures Valid() && closed == old(closed) && answers == old(answers)
          && View() == SetLatest(old(View()), m, prioritize)
      ensures history == Moved(old(history), m)
    {
      if !closed {
        SetLatestKeeps(View(), history, m, prioritize);
      }
      if prioritize {
        remote := Without(m.entity, remote);
        latest := latest[m.entity := m];
      } else {
        latest := latest - {m.entity};
        if !(remote != [] && remote[|remote| - 1] == m) {
          remote := remote + [m];
        }
      }
      history := Moved(history, m);
    }

    method PushRemoteMovement(m: Movement)
      requires Valid()
      modifies this
      ensures Valid() && closed == old(closed) && answers == old(answers) && View() == PushRemote(old(View()), m)
      ensures history == Moved(old(history), m)
    {
      if !closed {
        PushRemoteKeeps(View(), history, m);
      }
      if !(remote != [] && remote[|remote| - 1] == m) {
        remote := remote + [m];
      }
      history := Moved(history, m);
    }

    /** Nothing is pushed by a flush, and what was sent stays sent. */
    twostate predicate OnlySent()
      reads this
    {
      && history.pushed == old(history.pushed) && history.moves == old(history.moves)
      && old(history.sentEvents) <= history.sentEvents && old(history.sentMoves) <= history.sentMoves
    }

    /** A flush sends until the channel answers otherwise, or there is nothing more to send. */
    twostate predicate Tried(sent: nat, outcome: FlushOutcome)
      reads this
    {
      var before := |old(answers)|;
      && old(answers) <= answers && |answers| == before + sent + (if outcome.Complete? then 0 else 1)
      && (forall k :: before <= k < before + sent ==> answers[k].Sent?)
      && (outcome.Blocked? ==> answers[before + sent].Full?)
      && (outcome.Gone? ==> answers[before + sent].Closed?)
    }

    /** `try_send` on the bounded channel: any of its three answers, until the receiver is gone. */
    method TrySend() returns (r: SendResult)
      modifies this`closed, this`answers
      ensures closed == (old(closed) || r.Closed?) && (old(closed) ==> r.Closed?) && answers == old(answers) + [r]
    {
      r := Closed;
      if !closed {
        r := *;
        closed := r.Closed?;
      }
      answers := answers + [r];
    }

    method FlushReliable() returns (outcome: FlushOutcome, sent: nat)
      requires Valid()
      modifies this
      ensures Valid() && closed == (old(closed) || outcome.Gone?) && OnlySent()
      ensures Tried(sent, outcome) && sent <= |old(events)| && history.sentMoves == old(history.sentMoves)
      ensures history.sentEvents == old(history.sentEvents) + old(events)[..sent]
      ensures outcome.Complete? ==> sent == |old(events)| && events == []
      ensures outcome.Blocked? ==> sent < |old(events)| && events == old(events)[sent..]
      ensures old(closed) ==> !outcome.Blocked? && sent == 0 && history == old(history) && events == []
      ensures outcome.Gone? ==> events == [] && latest == map[] && remote == []
      ensures !outcome.Gone? ==> latest == old(latest) && remote == old(remote)
    {
      sent := 0;
      while events != []
        invariant (!closed ==> Kept(View(), history)) && closed == old(closed) && OnlySent()
        invariant latest == old(latest) && remote == old(remote)
        invariant closed ==> sent == 0 && history == old(history)
        invariant sent <= |old(events)| && events == old(events)[sent..] && Tried(sent, Complete)
        invariant history.sentEvents == old(history.sentEvents) + old(events)[..sent]
            && history.sentMoves == old(history.sentMoves)
        decreases |events|
      {
        var event := events[0];
        var r := TrySend();
        match r {
          case Sent =>
            SendReliableKeeps(View(), history);
            history := history.(sentEvents := history.sentEvents + [event]);
            events := events[1..];
            sent := sent + 1;
          case Full =>
            return Blocked, sent;
          case Closed =>
            events, latest, remote := [], map[], [];
            return Gone, sent;
        }
      }
      outcome := Complete;
    }

    method FlushMovementBucket() returns (outcome: FlushOutcome, sent: nat)
      requires Valid()
      modifies this
      ensures Valid() && closed == (old(closed) || outcome.Gone?) && OnlySent()
      ensures sent == |history.sentMoves| - |old(history.sentMoves)| && history.sentEvents == old(history.sentEvents)
      ensures Tried(sent, outcome)
      ensures outcome.Complete? ==> sent == |old(latest)| && latest == map[]
      ensures outcome.Blocked? ==>
                latest != map[] && latest.Items <= old(latest).Items && |latest| + sent == |old(latest)|
      ensures old(closed) ==> !outcome.Blocked? && sent == 0 && history == old(history) && latest == map[]
      ensures events == old(events) && remote == old(remote)
    {
      sent := 0;
      var waiting := latest;
      latest := map[];
      while waiting != map[]
        invariant (!closed ==> Kept(Queues(events, waiting, remote), history)) && closed == old(closed) && OnlySent()
        invariant events == old(events) && remote == old(remote) && latest == map[]
        invariant closed ==> sent == 0 && history == old(history)
        invariant Tried(sent, Complete) && waiting.Items <= old(latest).Items && |waiting| + sent == |old(latest)|
        invariant sent == |history.sentMoves| - |old(history.sentMoves)|
            && history.sentEvents == old(history.sentEvents)
        decreases |waiting|
      {
        assert waiting.Keys != {};
        var k :| k in waiting.Keys;
        var r := TrySend();
        match r {
          case Sent =>
            SendLatestKeeps(Queues(events, waiting, remote), history, k);
            history := history.(sentMoves := history.sentMoves + [waiting[k]]);
            assert (waiting - {k}).Keys == waiting.Keys - {k};
            waiting := waiting - {k};
            sent := sent + 1;
          case Full =>
            latest := waiting;
            return Blocked, sent;
          case Closed =>
            return Gone, sent;
        }
      }
      outcome := Complete;
    }

    method FlushRemoteMovementQueue() returns (outcome: FlushOutcome, sent: nat)
      requires Valid() && latest == map[]
      modifies this
      ensures Valid() && closed == (old(closed) || outcome.Gone?) && OnlySent()
      ensures Tried(sent, outcome) && sent <= |old(remote)| && history.sentEvents == old(history.sentEvents)
      ensures history.sentMoves == old(history.sentMoves) + old(remote)[..sent]
      ensures outcome.Complete? ==> sent == |old(remote)| && remote == []
      ensures outcome.Blocked? ==> sent < |old(remote)| && remote == old(remote)[sent..]
      ensures old(closed) ==> !outcome.Blocked? && sent == 0 && history == old(history) && remote == []
      ensures events == old(events) && latest == map[]
    {
      sent := 0;
      while remote != []
        invariant (!closed ==> Kept(View(), history)) && closed == old(closed) && OnlySent()
        invariant events == old(events) && latest == map[]
        invariant closed ==> sent == 0 && history == old(history)
        invariant sent <= |old(remote)| && remote == old(remote)[sent..] && Tried(sent, Complete)
        invariant history.sentMoves == old(history.sentMoves) + old(remote)[..sent]
            && history.sentEvents == old(history.sentEvents)
        decreases |remote|
      {
        var m := remote[0];
        var r := TrySend();
        match r {
          case Sent =>
            SendRemoteKeeps(View(), history);
            history := history.(sentMoves := history.sentMoves + [m]);
            remote := remote[1..];
            sent := sent + 1;
          case Full =>
            return Blocked, sent;
          case Closed =>
            remote := [];
            return Gone, sent;
        }
      }
      outcome := Complete;
    }

    /** A full channel stops the reliable loop but not the movement phases after it. */
    method Flush() returns (stats: Stats, ghost drained: bool)
      requires Valid()
      modifies this
      ensures Valid() && OnlySent()
      ensures stats.sentReliable == |history.sentEvents| - |old(history.sentEvents)|
      ensures stats.sentMovement == |history.sentMoves| - |old(history.sentMoves)|
      ensures stats.total == stats.sentReliable + stats.sentMovement
      ensures old(closed) ==> stats == Stats(0, 0, 0) && View() == Queues([], map[], []) && history == old(history)
      ensures drained ==> events == [] && latest == map[] && remote == []
      ensures closed ==> latest == map[] && remote == []
      ensures !closed && !drained ==> events != [] || latest != map[] || remote != []
      ensures old(answers) <= answers
      ensures (forall k :: |old(answers)| <= k < |answers| ==> answers[k].Sent?) ==>
                && View() == Queues([], map[], []) && closed == old(closed)
                && stats.sentReliable == |old(events)| && stats.sentMovement == |old(latest)| + |old(remote)|
    {
      var reliable, sentReliable := FlushReliable();
      if reliable.Gone? {
        return Stats(sentReliable, 0, sentReliable), true;
      }
      var bucket, sentBucket := FlushMovementBucket();
      if !bucket.Complete? {
        if bucket.Gone? {
          latest, remote := map[], [];
        }
        return Stats(sentReliable, sentBucket, sentReliable + sentBucket),
               events == [] && latest == map[] && remote == [];
      }
      var queue, sentQueue := FlushRemoteMovementQueue();
      if queue.Gone? {
        latest, remote := map[], [];
      }
      stats := Stats(sentReliable, sentBucket + sentQueue, sentReliable + (sentBucket + sentQueue));
      drained := events == [] && latest == map[] && remote == [];
    }
  }
}
