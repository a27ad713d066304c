/** Player rows fenced by a runtime epoch, and session rows leased to one server connection.
    Each SQL statement, and the exit transaction, is one atomic step at the database's clock. */
module Database {
  import opened Common

  type PlayerId = nat

  /** The columns a snapshot carries besides identity, epoch and playtime. */
  datatype World = World(mapKey: string, x: real, y: real, hp: Option<int>, sp: Option<int>, stamina: Option<int>)
  datatype Progress = Progress(level: int, exp: int, str: int, vit: int, dex: int, intel: int, resets: int)

  datatype Snapshot = Snapshot(player: PlayerId, epoch: int, world: World, playtime: int, progress: Progress)

  /** One player's identity, runtime and progression rows, always created together. */
  datatype Player = Player(deleted: bool, epoch: int, world: World, playtime: int, progress: Progress)

  datatype Lease = Lease(server: string, conn: string)

  datatype SessionState = Authed | Active

  datatype Session = Session(server: Option<string>, conn: Option<string>, heartbeat: int, token: Option<nat>,
                             issuedAt: Option<int>, peerIp: Option<string>, state: SessionState)

  datatype Tables = Tables(players: map<PlayerId, Player>, sessions: map<string, Session>)

  datatype Stmt =
    | CreatePlayer(player: PlayerId, world: World, progress: Progress)
    | DeletePlayer(player: PlayerId)
    | SaveSnapshot(snapshot: Snapshot)
    | CommitExit(user: string, lease: Lease, snapshot: Snapshot)
    | Acquire(user: string, lease: Lease, threshold: int)
    | Resume(user: string, token: nat, lease: Lease, threshold: int, ttl: int, ip: string)
    | SetToken(user: string, token: nat)
    | ValidateToken(user: string, token: nat, ttl: int, ip: string)
    | MarkStale(user: string, lease: Lease, threshold: int)
    | Release(user: string, lease: Lease)
    | Heartbeat(user: string)

  datatype Outcome =
    | Saved
    | StaleOwner
    | Invariant
    | Committed
    | Acquired
    | AlreadyOnOtherServer(server: Option<string>)
    | Applied(changed: bool)

  function AtLeastZero(i: int): nat {
    if i < 0 then 0 else i
  }

  function MaxOf(a: int, b: int): int {
    if a < b then b else a
  }

  // ----- player rows

  function Written(p: Player, s: Snapshot): Player {
    p.(world := s.world, playtime := MaxOf(p.playtime, s.playtime), progress := s.progress)
  }

  function Save(t: Tables, s: Snapshot): (Tables, Outcome) {
    if s.player !in t.players then (t, Invariant)
    else
      var p := t.players[s.player];
      var matched := p.epoch == s.epoch;
      (if matched then t.(players := t.players[s.player := Written(p, s)]) else t,
       if p.deleted then Invariant else if matched then Saved else StaleOwner)
  }

  predicate Holds(s: Session, lease: Lease) {
    s.server == Some(lease.server) && s.conn == Some(lease.conn)
  }

  predicate ExitAllowed(t: Tables, user: string, lease: Lease, s: Snapshot) {
    && s.player in t.players && !t.players[s.player].deleted && t.players[s.player].epoch == s.epoch
    && user in t.sessions && Holds(t.sessions[user], lease)
  }

  function Freed(s: Session): Session {
    s.(server := None, conn := None, state := Authed)
  }

  /** Both updates, or a rollback. */
  function Exit(t: Tables, user: string, lease: Lease, s: Snapshot): (Tables, Outcome) {
    if !ExitAllowed(t, user, lease, s) then (t, Invariant)
    else
      var p := Written(t.players[s.player], s);
      (Tables(t.players[s.player := p.(epoch := p.epoch + 1)], t.sessions[user := Freed(t.sessions[user])]), Committed)
  }

  // ----- session rows

  /** Last heartbeat strictly before `now - threshold`. */
  predicate IsStale(s: Session, now: int, threshold: int) {
    s.heartbeat < now - threshold
  }

  function Claimed(s: Session, lease: Lease, now: int): Session {
    s.(server := Some(lease.server), conn := Some(lease.conn), heartbeat := now, state := Active)
  }

  function AcquireRow(t: Tables, now: int, user: string, lease: Lease, threshold: int): Session {
    if user !in t.sessions then Session(Some(lease.server), Some(lease.conn), now, None, None, None, Active)
    else
      var s := t.sessions[user];
      if s.state.Authed? || IsStale(s, now, threshold) then Claimed(s, lease, now) else s
  }

  predicate TokenLive(s: Session, now: int, token: nat, ttl: int, ip: string) {
    && s.token == Some(token) && s.issuedAt.Some? && s.issuedAt.value >= now - AtLeastZero(ttl)
    && (s.peerIp.None? || s.peerIp.value == ip)
  }

  predicate ResumeAllowed(s: Session, now: int, token: nat, lease: Lease, threshold: int, ttl: int, ip: string) {
    && TokenLive(s, now, token, ttl, ip)
    && (s.state.Authed? || IsStale(s, now, AtLeastZero(threshold)) || Holds(s, lease))
  }

  function TokenRow(t: Tables, now: int, user: string, token: nat): Session {
    if user !in t.sessions then Session(None, None, now, Some(token), Some(now), None, Authed)
    else
      var s := t.sessions[user].(token := Some(token), issuedAt := Some(now), peerIp := None);
      if s.state.Active? && s.server.Some? && s.conn.Some? then s
      else s.(state := Authed, server := None, conn := None, heartbeat := now)
  }

  function SetSession(t: Tables, user: string, s: Session): Tables {
    t.(sessions := t.sessions[user := s])
  }

  function Exec(t: Tables, now: int, stmt: Stmt): (Tables, Outcome) {
    match stmt
    case CreatePlayer(id, world, progress) =>
      if id in t.players then (t, Applied(false))
      else (t.(players := t.players[id := Player(false, 0, world, 0, progress)]), Applied(true))
    case DeletePlayer(id) =>
      if id !in t.players || t.players[id].deleted then (t, Applied(false))
      else (t.(players := t.players[id := t.players[id].(deleted := true)]), Applied(true))
    case SaveSnapshot(s) => Save(t, s)
    case CommitExit(user, lease, s) => Exit(t, user, lease, s)
    case Acquire(user, lease, threshold) =>
      var row := AcquireRow(t, now, user, lease, threshold);
      (SetSession(t, user, row), if row.conn == Some(lease.conn) then Acquired else AlreadyOnOtherServer(row.server))
    case Resume(user, token, lease, threshold, ttl, ip) =>
      if user in t.sessions && ResumeAllowed(t.sessions[user], now, token, lease, threshold, ttl, ip) then
        (SetSession(t, user, Claimed(t.sessions[user], lease, now).(issuedAt := Some(now), peerIp := Some(ip))),
         Applied(true))
      else (t, Applied(false))
    case SetToken(user, token) => (SetSession(t, user, TokenRow(t, now, user, token)), Applied(true))
    case ValidateToken(user, token, ttl, ip) =>
      if user in t.sessions && t.sessions[user].state.Authed? && TokenLive(t.sessions[user], now, token, ttl, ip) then
        (SetSession(t, user, t.sessions[user].(issuedAt := Some(now), peerIp := Some(ip))), Applied(true))
      else (t, Applied(false))
    case MarkStale(user, lease, threshold) =>
      if user in t.sessions && Holds(t.sessions[user], lease) then
        (SetSession(t, user, t.sessions[user].(heartbeat := now - (AtLeastZero(threshold) + 1), state := Active)),
         Applied(true))
      else (t, Applied(false))
    case Release(user, lease) =>
      if user in t.sessions && Holds(t.sessions[user], lease) then
        (SetSession(t, user, Freed(t.sessions[user])), Applied(true))
      else (t, Applied(false))
    case Heartbeat(user) =>
      if user in t.sessions && t.sessions[user].state.Active? then
        (SetSession(t, user, t.sessions[user].(heartbeat := now)), Applied(true))
      else (t, Applied(false))
  }

  // ----- runs: any number of servers, in any interleaving

  datatype Timed = Timed(now: int, stmt: Stmt)

  function Run(t: Tables, steps: seq<Timed>): Tables
    decreases |steps|
  {
    if steps == [] then t else Run(Exec(t, steps[0].now, steps[0].stmt).0, steps[1..])
  }

  /** Players stay, deleted or not, and their epoch and playtime never go back. */
  ghost predicate NeverBack(a: Tables, b: Tables) {
    forall p :: p in a.players ==>
      && p in b.players && a.players[p].epoch <= b.players[p].epoch && a.players[p].playtime <= b.players[p].playtime
      && (a.players[p].deleted ==> b.players[p].deleted)
  }

  lemma ExecNeverBack(t: Tables, now: int, stmt: Stmt)
    ensures NeverBack(t, Exec(t, now, stmt).0)
  {
  }

  lemma {:induction false} RunNeverBack(t: Tables, steps: seq<Timed>)
    ensures NeverBack(t, Run(t, steps))
    decreases |steps|
  {
    if steps != [] {
      ExecNeverBack(t, steps[0].now, steps[0].stmt);
      RunNeverBack(Exec(t, steps[0].now, steps[0].stmt).0, steps[1..]);
    }
  }

  /** The stored rows of a player that a snapshot would write. */
  function Rows(t: Tables, p: PlayerId): Option<Player> {
    if p in t.players then Some(t.players[p]) else None
  }

  function SnapshotOf(stmt: Stmt): Option<Snapshot> {
    match stmt
    case SaveSnapshot(s) => Some(s)
    case CommitExit(_, _, s) => Some(s)
    case _ => None
  }

  /** The player is written by a snapshot of its epoch: everything is taken over but a smaller playtime. */
  predicate WrittenBy(was: Player, next: Player, s: Snapshot, epoch: int) {
    && s.epoch == was.epoch && next.epoch == epoch
    && next.world == s.world && next.progress == s.progress && next.deleted == was.deleted
    && next.playtime == if s.playtime < was.playtime then was.playtime else s.playtime
  }

  predicate Changes(was: Option<Player>, next: Option<Player>, stmt: Stmt, p: PlayerId) {
    match stmt
    case CreatePlayer(id, world, progress) =>
      id == p && was == None && next == Some(Player(false, 0, world, 0, progress))
    case DeletePlayer(id) => id == p && was.Some? && next == Some(was.value.(deleted := true))
    case SaveSnapshot(s) =>
      s.player == p && was.Some? && next.Some? && WrittenBy(was.value, next.value, s, was.value.epoch)
    case CommitExit(_, _, s) =>
      s.player == p && was.Some? && next.Some? && WrittenBy(was.value, next.value, s, was.value.epoch + 1)
    case _ => false
  }

  /** A player's rows change only by being created, marked deleted, or written by a snapshot of their
      epoch, and an exit brings the next epoch. */
  lemma RowsChange(t: Tables, now: int, stmt: Stmt, p: PlayerId)
    ensures var was, next := Rows(t, p), Rows(Exec(t, now, stmt).0, p);
            was == next || Changes(was, next, stmt, p)
  {
  }

  /** A player is created exactly if there is none, and deleted exactly if it is there and is not yet. */
  lemma CreateDeleteExact(t: Tables, now: int, p: PlayerId, world: World, progress: Progress)
    ensures var (after, outcome) := Exec(t, now, CreatePlayer(p, world, progress));
            && (outcome == Applied(true) <==> p !in t.players) && (outcome != Applied(true) ==> after == t)
            && (outcome == Applied(true) ==> Rows(after, p) == Some(Player(false, 0, world, 0, progress)))
    ensures var (after, outcome) := Exec(t, now, DeletePlayer(p));
            && (outcome == Applied(true) <==> p in t.players && !t.players[p].deleted)
            && (outcome != Applied(true) ==> after == t)
            && (outcome == Applied(true) ==> p in after.players && after.players[p].deleted)
  {
  }

  /** Once an exit at epoch `e` has committed, whatever runs after it, no write carrying `e` or an
      older epoch changes that player's rows or reports success. */
  lemma ExitFences(t: Tables, now: int, user: string, lease: Lease, s: Snapshot, steps: seq<Timed>, later: Timed)
    requires Exec(t, now, CommitExit(user, lease, s)).1 == Committed
    requires SnapshotOf(later.stmt).Some?
    requires SnapshotOf(later.stmt).value.player == s.player && SnapshotOf(later.stmt).value.epoch <= s.epoch
    ensures var before := Run(Exec(t, now, CommitExit(user, lease, s)).0, steps);
            var (after, outcome) := Exec(before, later.now, later.stmt);
            Rows(after, s.player) == Rows(before, s.player) && !outcome.Saved? && !outcome.Committed?
  {
    var committed := Exec(t, now, CommitExit(user, lease, s)).0;
    assert s.player in committed.players && committed.players[s.player].epoch == s.epoch + 1;
    RunNeverBack(committed, steps);
  }

  // ----- leases

  /** ACTIVE exactly when both server and connection are set, and otherwise neither is. */
  predicate SessionOk(s: Session) {
    if s.state.Active? then s.server.Some? && s.conn.Some? else s.server.None? && s.conn.None?
  }

  ghost predicate SessionsOk(t: Tables) {
    forall u :: u in t.sessions ==> SessionOk(t.sessions[u])
  }

  lemma ExecSessionOk(t: Tables, now: int, stmt: Stmt, u: string)
    requires SessionsOk(t) && u in Exec(t, now, stmt).0.sessions
    ensures SessionOk(Exec(t, now, stmt).0.sessions[u])
  {
    assert u in t.sessions ==> SessionOk(t.sessions[u]);
  }

  lemma ExecSessionsOk(t: Tables, now: int, stmt: Stmt)
    requires SessionsOk(t)
    ensures SessionsOk(Exec(t, now, stmt).0)
  {
    forall u | u in Exec(t, now, stmt).0.sessions ensures SessionOk(Exec(t, now, stmt).0.sessions[u]) {
      ExecSessionOk(t, now, stmt, u);
    }
  }

  lemma {:induction false} RunSessionsOk(t: Tables, steps: seq<Timed>)
    requires SessionsOk(t)
    ensures SessionsOk(Run(t, steps))
    decreases |steps|
  {
    if steps != [] {
      ExecSessionsOk(t, steps[0].now, steps[0].stmt);
      RunSessionsOk(Exec(t, steps[0].now, steps[0].stmt).0, steps[1..]);
    }
  }

  function Holder(t: Tables, user: string): Option<Lease> {
    if user in t.sessions && t.sessions[user].state.Active? && t.sessions[user].server.Some?
        && t.sessions[user].conn.Some? then
      Some(Lease(t.sessions[user].server.value, t.sessions[user].conn.value))
    else None
  }

  /** An exit stores its snapshot, bumps the epoch by one and frees the lease, touching no other row,
      or does nothing; it succeeds exactly when the player is live at that epoch and the caller
      holds the lease. */
  lemma ExitAllOrNothing(t: Tables, now: int, user: string, lease: Lease, s: Snapshot)
    requires SessionsOk(t)
    ensures var (after, outcome) := Exec(t, now, CommitExit(user, lease, s));
            && (outcome == Committed <==>
                  && s.player in t.players && !t.players[s.player].deleted && t.players[s.player].epoch == s.epoch
                  && Holder(t, user) == Some(lease))
            && (outcome == Committed ==>
                  && s.player in after.players && after.players[s.player].epoch == s.epoch + 1
                  && after.players[s.player].world == s.world && after.players[s.player].progress == s.progress
                  && Holder(after, user) == None
                  && (forall p :: p != s.player ==> Rows(after, p) == Rows(t, p))
                  && (forall u :: u != user ==> Holder(after, u) == Holder(t, u)))
            && (outcome != Committed ==> after == t)
  {
    var after := Exec(t, now, CommitExit(user, lease, s)).0;
    assert user in t.sessions ==> SessionOk(t.sessions[user]);
    forall u | u != user ensures Holder(after, u) == Holder(t, u) {
      assert u in after.sessions <==> u in t.sessions;
    }
  }

  /** The holder's own statements that end or age its lease. */
  predicate GivesUp(stmt: Stmt, user: string, lease: Lease) {
    match stmt
    case Release(u, l) => u == user && l == lease
    case CommitExit(u, l, _) => u == user && l == lease
    case MarkStale(u, l, _) => u == user && l == lease
    case _ => false
  }

  /** The threshold a claim uses: `acquire_session` takes it as given, `resume` floors it at zero. */
  function ClaimThreshold(stmt: Stmt): Option<int> {
    match stmt
    case Acquire(_, _, threshold) => Some(threshold)
    case Resume(_, _, _, threshold, _, _) => Some(AtLeastZero(threshold))
    case _ => None
  }

  function ClaimedLease(stmt: Stmt): Lease
    requires ClaimThreshold(stmt).Some?
  {
    stmt.lease
  }

  /** A lease leaves its holder only by the holder's own release or exit, or to a claimer that finds
      the heartbeat older than its threshold. */
  lemma HandoverCause(t: Tables, now: int, stmt: Stmt, user: string, lease: Lease)
    requires SessionsOk(t) && Holder(t, user) == Some(lease)
    ensures var after := Holder(Exec(t, now, stmt).0, user);
            after != Some(lease) ==>
              || (after == None && GivesUp(stmt, user, lease) && !stmt.MarkStale?)
              || (&& ClaimThreshold(stmt).Some? && stmt.user == user && after == Some(ClaimedLease(stmt))
                  && IsStale(t.sessions[user], now, ClaimThreshold(stmt).value))
  {
  }

  /** What `HandoverCause` allows a step to be. */
  ghost predicate EndsLease(t: Tables, step: Timed, user: string, lease: Lease) {
    && Holder(t, user) == Some(lease)
    && (|| (GivesUp(step.stmt, user, lease) && !step.stmt.MarkStale?)
        || (ClaimThreshold(step.stmt).Some? && step.stmt.user == user && user in t.sessions
            && IsStale(t.sessions[user], step.now, ClaimThreshold(step.stmt).value)))
  }

  lemma EndedHere(t: Tables, step: Timed, user: string, lease: Lease)
    requires SessionsOk(t) && Holder(t, user) == Some(lease)
    requires Holder(Exec(t, step.now, step.stmt).0, user) != Some(lease)
    ensures EndsLease(t, step, user, lease)
  {
    HandoverCause(t, step.now, step.stmt, user, lease);
  }

  lemma RunFirst(t: Tables, steps: seq<Timed>, i: nat)
    requires 0 < i <= |steps|
    ensures Run(t, steps[..i]) == Run(Exec(t, steps[0].now, steps[0].stmt).0, steps[1..][..i - 1])
  {
    assert steps[..i][1..] == steps[1..][..i - 1];
  }

  /** In any run, a lease that is no longer its holder's was ended at some step by the holder itself
      or by a claimer that found it stale right then. */
  lemma {:induction false} LeaseEnded(t: Tables, steps: seq<Timed>, user: string, lease: Lease) returns (i: nat)
    requires SessionsOk(t) && Holder(t, user) == Some(lease) && Holder(Run(t, steps), user) != Some(lease)
    ensures i < |steps| && EndsLease(Run(t, steps[..i]), steps[i], user, lease)
    decreases |steps|
  {
    var next := Exec(t, steps[0].now, steps[0].stmt).0;
    if Holder(next, user) != Some(lease) {
      i := 0;
      EndedHere(t, steps[0], user, lease);
      assert Run(t, steps[..0]) == t;
    } else {
      ExecSessionsOk(t, steps[0].now, steps[0].stmt);
      var j := LeaseEnded(next, steps[1..], user, lease);
      i := j + 1;
      RunFirst(t, steps, i);
    }
  }

  /** No statement of the run gives up the lease, and every claimer waits at least `theta`. */
  ghost predicate Quiet(steps: seq<Timed>, user: string, lease: Lease, from: int, theta: int) {
    forall i :: 0 <= i < |steps| ==>
      && from <= steps[i].now <= from + theta
      && !GivesUp(steps[i].stmt, user, lease)
      && (ClaimThreshold(steps[i].stmt).Some? ==> theta <= ClaimThreshold(steps[i].stmt).value)
  }

  /** A holder whose heartbeat is from time `from` keeps the lease for the whole threshold after it,
      against any number of claimers. */
  lemma {:induction false} LeaseHeld(t: Tables, steps: seq<Timed>, user: string, lease: Lease, from: int, theta: int)
    requires SessionsOk(t) && Holder(t, user) == Some(lease) && t.sessions[user].heartbeat >= from
    requires Quiet(steps, user, lease, from, theta)
    ensures Holder(Run(t, steps), user) == Some(lease) && Run(t, steps).sessions[user].heartbeat >= from
    decreases |steps|
  {
    if steps != [] {
      var next := Exec(t, steps[0].now, steps[0].stmt).0;
      HandoverCause(t, steps[0].now, steps[0].stmt, user, lease);
      ExecSessionsOk(t, steps[0].now, steps[0].stmt);
      LeaseHeld(next, steps[1..], user, lease, from, theta);
    }
  }

  /** `Acquired` names the caller as holder, exactly unless a fresh lease of another server happens
      to carry the same connection id, since only connection ids are compared. */
  lemma AcquiredMeansHeld(t: Tables, now: int, user: string, lease: Lease, threshold: int)
    requires SessionsOk(t) && Exec(t, now, Acquire(user, lease, threshold)).1 == Acquired
    ensures var clash := user in t.sessions && t.sessions[user].state.Active?
                         && !IsStale(t.sessions[user], now, threshold)
                         && t.sessions[user].conn == Some(lease.conn) && t.sessions[user].server != Some(lease.server);
            Holder(Exec(t, now, Acquire(user, lease, threshold)).0, user) == Some(lease) <==> !clash
  {
  }

  lemma AcquiredClashExample()
    ensures var held := Session(Some("core-2"), Some("c-7"), 100, None, None, None, Active);
            var t := Tables(map[], map["alice" := held]);
            var (after, outcome) := Exec(t, 101, Acquire("alice", Lease("core-1", "c-7"), 30));
            outcome == Acquired && Holder(after, "alice") == Some(Lease("core-2", "c-7"))
  {
  }

  // ----- a save that reports failure

  /** Whether the save's update matches its row. */
  predicate SaveHits(t: Tables, s: Snapshot) {
    s.player in t.players && t.players[s.player].epoch == s.epoch
  }

  /** A save reports `Saved` exactly when it wrote the row, exactly unless its row is that of a
      deleted player: then it is written and an error reported. */
  lemma SavedMeansWritten(t: Tables, now: int, s: Snapshot)
    ensures var (after, outcome) := Exec(t, now, SaveSnapshot(s));
            && (SaveHits(t, s) ==> Rows(after, s.player) == Some(Written(t.players[s.player], s)))
            && (!SaveHits(t, s) ==> Rows(after, s.player) == Rows(t, s.player))
            && (forall p :: p != s.player ==> Rows(after, p) == Rows(t, p)) && after.sessions == t.sessions
            && ((SaveHits(t, s) <==> outcome == Saved) <==>
                  !(s.player in t.players && t.players[s.player].deleted && t.players[s.player].epoch == s.epoch))
  {
  }

  lemma DeletedSaveExample()
    ensures var was := World("map-a", 1.0, 2.0, None, None, None);
            var progress := Progress(1, 0, 3, 3, 3, 3, 0);
            var t := Tables(map[7 := Player(true, 4, was, 60, progress)], map[]);
            var s := Snapshot(7, 4, was.(x := 9.0), 90, progress);
            var (after, outcome) := Exec(t, 100, SaveSnapshot(s));
            outcome == Invariant && Rows(after, 7) == Some(Player(true, 4, was.(x := 9.0), 90, progress)) != Rows(t, 7)
  {
  }

  // ----- the statements as they run

  /** The database the servers share.  Every statement keeps session rows well-formed and never takes
      an epoch or a playtime back. */
  class GameDatabase {
    var players: map<PlayerId, Player>
    var sessions: map<string, Session>

    ghost function View(): Tables
      reads this
    {
      Tables(players, sessions)
    }

    ghost predicate Valid()
      reads this
    {
      SessionsOk(View())
    }

    constructor ()
      ensures Valid() && View() == Tables(map[], map[])
    {
      players, sessions := map[], map[];
    }

    method SavePlayerSnapshot(now: int, s: Snapshot) returns (outcome: Outcome)
      requires Valid()
      modifies this
      ensures Valid() && (View(), outcome) == Exec(old(View()), now, SaveSnapshot(s))
    {
      ExecSessionsOk(View(), now, SaveSnapshot(s));
      var live, updated := false, false;
      if s.player in players {
        var p := players[s.player];
        live := !p.deleted;
        if p.epoch == s.epoch {
          players := players[s.player := Written(p, s)];
          updated := true;
        }
      }
      return if !live then Invariant else if updated then Saved else StaleOwner;
    }

    method CommitPlayerExit(now: int, user: string, lease: Lease, s: Snapshot) returns (outcome: Outcome)
      requires Valid()
      modifies this
      ensures Valid() && (View(), outcome) == Exec(old(View()), now, CommitExit(user, lease, s))
    {
      ExecSessionsOk(View(), now, CommitExit(user, lease, s));
      var saved := players;
      if !(s.player in players && !players[s.player].deleted && players[s.player].epoch == s.epoch) {
        return Invariant;
      }
      var p := Written(players[s.player], s);
      players := players[s.player := p.(epoch := p.epoch + 1)];
      if !(user in sessions && Holds(sessions[user], lease)) {
        players := saved;
        return Invariant;
      }
      sessions := sessions[user := Freed(sessions[user])];
      return Committed;
    }

    method AcquireSession(now: int, user: string, lease: Lease, threshold: int) returns (outcome: Outcome)
      requires Valid()
      modifies this`sessions
      ensures Valid() && (View(), outcome) == Exec(old(View()), now, Acquire(user, lease, threshold))
    {
      ExecSessionsOk(View(), now, Acquire(user, lease, threshold));
      if user !in sessions {
        sessions := sessions[user := Session(Some(lease.server), Some(lease.conn), now, None, None, None, Active)];
      } else if sessions[user].state.Authed? || IsStale(sessions[user], now, threshold) {
        sessions := sessions[user := Claimed(sessions[user], lease, now)];
      } else {
        assert sessions == sessions[user := sessions[user]];
      }
      var row := sessions[user];
      return if row.conn == Some(lease.conn) then Acquired else AlreadyOnOtherServer(row.server);
    }

    method SetSessionLoginToken(now: int, user: string, token: nat) returns (outcome: Outcome)
      requires Valid()
      modifies this`sessions
      ensures Valid() && (View(), outcome) == Exec(old(View()), now, SetToken(user, token))
    {
      ExecSessionsOk(View(), now, SetToken(user, token));
      if user !in sessions {
        sessions := sessions[user := Session(None, None, now, Some(token), Some(now), None, Authed)];
      } else {
        var s := sessions[user].(token := Some(token), issuedAt := Some(now), peerIp := None);
        if !(s.state.Active? && s.server.Some? && s.conn.Some?) {
          s := s.(state := Authed, server := None, conn := None, heartbeat := now);
        }
        sessions := sessions[user := s];
      }
      return Applied(true);
    }

    /** The guarded single-row updates: the row changes exactly when its guard matches. */
    method UpdateSession(now: int, stmt: Stmt) returns (outcome: Outcome)
      requires Valid()
      requires stmt.Resume? || stmt.ValidateToken? || stmt.MarkStale? || stmt.Release? || stmt.Heartbeat?
      modifies this`sessions
      ensures Valid() && (View(), outcome) == Exec(old(View()), now, stmt)
    {
      ExecSessionsOk(View(), now, stmt);
      if stmt.user !in sessions {
        return Applied(false);
      }
      var s := sessions[stmt.user];
      match stmt {
        case Resume(_, token, lease, threshold, ttl, ip) =>
          if !ResumeAllowed(s, now, token, lease, threshold, ttl, ip) { return Applied(false); }
          s := Claimed(s, lease, now).(issuedAt := Some(now), peerIp := Some(ip));
        case ValidateToken(_, token, ttl, ip) =>
          if !(s.state.Authed? && TokenLive(s, now, token, ttl, ip)) { return Applied(false); }
          s := s.(issuedAt := Some(now), peerIp := Some(ip));
        case MarkStale(_, lease, threshold) =>
          if !Holds(s, lease) { return Applied(false); }
          s := s.(heartbeat := now - (AtLeastZero(threshold) + 1), state := Active);
        case Release(_, lease) =>
          if !Holds(s, lease) { return Applied(false); }
          s := Freed(s);
        case Heartbeat(_) =>
          if !s.state.Active? { return Applied(false); }
          s := s.(heartbeat := now);
      }
      sessions := sessions[stmt.user := s];
      return Applied(true);
    }

    /** The two statements on a player's identity row. */
    method ChangePlayer(now: int, stmt: Stmt) returns (outcome: Outcome)
      requires Valid() && (stmt.CreatePlayer? || stmt.DeletePlayer?)
      modifies this`players
      ensures Valid() && (View(), outcome) == Exec(old(View()), now, stmt)
    {
      if stmt.CreatePlayer? == (stmt.player in players) || (stmt.DeletePlayer? && players[stmt.player].deleted) {
        return Applied(false);
      }
      if stmt.CreatePlayer? {
        players := players[stmt.player := Player(false, 0, stmt.world, 0, stmt.progress)];
      } else {
        players := players[stmt.player := players[stmt.player].(deleted := true)];
      }
      return Applied(true);
    }

    /** Any servers' statements in the order the database takes them. */
    method ExecuteAll(steps: seq<Timed>)
      requires Valid()
      modifies this
      ensures Valid() && View() == Run(old(View()), steps) && NeverBack(old(View()), View())
    {
      var i := 0;
      while i < |steps|
        invariant 0 <= i <= |steps| && Valid()
        invariant Run(View(), steps[i..]) == Run(old(View()), steps)
      {
        var now, stmt := steps[i].now, steps[i].stmt;
        assert steps[i..][1..] == steps[i + 1..];
        var outcome;
        match stmt {
          case CreatePlayer(_, _, _) => outcome := ChangePlayer(now, stmt);
          case DeletePlayer(_) => outcome := ChangePlayer(now, stmt);
          case SaveSnapshot(s) => outcome := SavePlayerSnapshot(now, s);
          case CommitExit(user, lease, s) => outcome := CommitPlayerExit(now, user, lease, s);
          case Acquire(user, lease, threshold) => outcome := AcquireSession(now, user, lease, threshold);
          case SetToken(user, token) => outcome := SetSessionLoginToken(now, user, token);
          case _ => outcome := UpdateSession(now, stmt);
        }
        i := i + 1;
      }
      RunNeverBack(old(View()), steps);
    }
  }
}
