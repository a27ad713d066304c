/** What each session statement does to its row, and who gets a session by a login token over whole runs. */
module Sessions {
  import opened Common
  import opened Database

  // ----- one statement

  function Row(t: Tables, user: string): Option<Session> {
    if user in t.sessions then Some(t.sessions[user]) else None
  }

  /** At most the session of `user` changes. */
  ghost predicate OnlySession(t: Tables, after: Tables, user: string) {
    after.players == t.players && forall u :: u != user ==> Row(after, u) == Row(t, u)
  }

  /** More than `threshold`, and more than nothing, has passed since the last heartbeat. */
  predicate Silent(s: Session, now: int, threshold: int) {
    now - s.heartbeat > threshold && now > s.heartbeat
  }

  /** Nobody holds the row, or the caller does, or its holder has been silent too long. */
  predicate FreeFor(t: Tables, user: string, now: int, lease: Lease, threshold: int) {
    || Holder(t, user) == None || Holder(t, user) == Some(lease)
    || (user in t.sessions && Silent(t.sessions[user], now, threshold))
  }

  /** The token is this one, was issued at most `ttl` ago, and is bound to no other address. */
  predicate TokenFits(s: Session, now: int, token: nat, ttl: int, ip: string) {
    && s.token == Some(token) && (s.peerIp == None || s.peerIp == Some(ip))
    && s.issuedAt.Some? && (now <= s.issuedAt.value || now - s.issuedAt.value <= ttl)
  }

  /** A resume succeeds exactly with a fitting token on a row free for the caller, who then holds it. */
  lemma ResumeExact(t: Tables, now: int, user: string, token: nat, lease: Lease, threshold: int, ttl: int, ip: string)
    requires SessionsOk(t)
    ensures var (after, outcome) := Exec(t, now, Resume(user, token, lease, threshold, ttl, ip));
            && (outcome == Applied(true) <==>
                  && user in t.sessions && TokenFits(t.sessions[user], now, token, ttl, ip)
                  && FreeFor(t, user, now, lease, threshold))
            && (outcome == Applied(true) ==>
                  Row(after, user) == Some(Session(Some(lease.server), Some(lease.conn), now, Some(token), Some(now),
                                                   Some(ip), Active)))
            && (outcome != Applied(true) ==> after == t) && OnlySession(t, after, user)
  {
    assert user in t.sessions ==> SessionOk(t.sessions[user]);
  }

  /** A token is validated exactly while nobody holds the row, and that renews and binds it. */
  lemma ValidateExact(t: Tables, now: int, user: string, token: nat, ttl: int, ip: string)
    requires SessionsOk(t)
    ensures var (after, outcome) := Exec(t, now, ValidateToken(user, token, ttl, ip));
            && (outcome == Applied(true) <==>
                  user in t.sessions && TokenFits(t.sessions[user], now, token, ttl, ip) && Holder(t, user) == None)
            && (outcome == Applied(true) ==>
                  Row(after, user) == Some(t.sessions[user].(issuedAt := Some(now), peerIp := Some(ip))))
            && (outcome != Applied(true) ==> after == t) && OnlySession(t, after, user)
  {
    assert user in t.sessions ==> SessionOk(t.sessions[user]);
  }

  /** A new token is issued now and bound to no address; a holder keeps the row with its heartbeat. */
  lemma SetTokenExact(t: Tables, now: int, user: string, token: nat)
    requires SessionsOk(t)
    ensures var after := Exec(t, now, SetToken(user, token)).0;
            && Holder(after, user) == Holder(t, user) && OnlySession(t, after, user) && user in after.sessions
            && var s := after.sessions[user];
               && s.token == Some(token) && s.issuedAt == Some(now) && s.peerIp == None
               && s.heartbeat == if Holder(t, user).Some? then t.sessions[user].heartbeat else now
  {
    assert user in t.sessions ==> SessionOk(t.sessions[user]);
  }

  /** Acquiring takes a row that nobody holds or whose holder is silent, and starts its heartbeat. */
  lemma AcquireExact(t: Tables, now: int, user: string, lease: Lease, threshold: int)
    requires SessionsOk(t)
    ensures var after := Exec(t, now, Acquire(user, lease, threshold)).0;
            var takes := Holder(t, user) == None || now - t.sessions[user].heartbeat > threshold;
            && Holder(after, user) == (if takes then Some(lease) else Holder(t, user))
            && OnlySession(t, after, user) && user in after.sessions
            && var s := after.sessions[user];
               && s.heartbeat == (if takes then now else t.sessions[user].heartbeat)
               && (s.token, s.issuedAt, s.peerIp) == (if user !in t.sessions then (None, None, None)
                  else (t.sessions[user].token, t.sessions[user].issuedAt, t.sessions[user].peerIp))
  {
    assert user in t.sessions ==> SessionOk(t.sessions[user]);
  }

  /** A heartbeat counts exactly while somebody holds the row. */
  lemma HeartbeatExact(t: Tables, now: int, user: string)
    requires SessionsOk(t)
    ensures var (after, outcome) := Exec(t, now, Heartbeat(user));
            && (outcome == Applied(true) <==> Holder(t, user).Some?)
            && Row(after, user) == (if Holder(t, user).Some? then Some(t.sessions[user].(heartbeat := now))
                                    else Row(t, user))
            && OnlySession(t, after, user)
  {
    assert user in t.sessions ==> SessionOk(t.sessions[user]);
  }

  /** A release works exactly for the holder; the row stays for a resume with its token. */
  lemma ReleaseExact(t: Tables, now: int, user: string, lease: Lease)
    requires SessionsOk(t)
    ensures var (after, outcome) := Exec(t, now, Release(user, lease));
            && (outcome == Applied(true) <==> Holder(t, user) == Some(lease))
            && (outcome == Applied(true) ==>
                  Row(after, user) == Some(t.sessions[user].(server := None, conn := None, state := Authed)))
            && (outcome != Applied(true) ==> after == t) && OnlySession(t, after, user)
  {
    assert user in t.sessions ==> SessionOk(t.sessions[user]);
  }

  /** Marking stale works exactly for the holder, who keeps the row, silent for just over the threshold. */
  lemma MarkStaleExact(t: Tables, now: int, user: string, lease: Lease, threshold: int)
    requires SessionsOk(t)
    ensures var (after, outcome) := Exec(t, now, MarkStale(user, lease, threshold));
            && (outcome == Applied(true) <==> Holder(t, user) == Some(lease))
            && (outcome == Applied(true) ==>
                  && Holder(after, user) == Some(lease)
                  && Row(after, user) == Some(t.sessions[user].(heartbeat := after.sessions[user].heartbeat))
                  && now - after.sessions[user].heartbeat == 1 + if threshold < 0 then 0 else threshold)
            && (outcome != Applied(true) ==> after == t) && OnlySession(t, after, user)
  {
    assert user in t.sessions ==> SessionOk(t.sessions[user]);
  }

  /** A lease marked stale goes to whoever asks next with no longer a threshold, at once or later. */
  lemma StaleIsTaken(t: Tables, now: int, user: string, lease: Lease, threshold: int, later: int, claimer: Lease,
                     wait: int)
    requires SessionsOk(t) && Holder(t, user) == Some(lease) && now <= later && wait <= threshold
    ensures var marked := Exec(t, now, MarkStale(user, lease, threshold)).0;
            var (after, outcome) := Exec(marked, later, Acquire(user, claimer, wait));
            Holder(after, user) == Some(claimer) && outcome == Acquired
  {
    ExecSessionsOk(t, now, MarkStale(user, lease, threshold));
    MarkStaleExact(t, now, user, lease, threshold);
    AcquireExact(Exec(t, now, MarkStale(user, lease, threshold)).0, later, user, claimer, wait);
  }

  // ----- a login token over a run

  lemma {:induction false} RunSnoc(t: Tables, steps: seq<Timed>, j: nat)
    requires j < |steps|
    ensures Run(t, steps[..j + 1]) == Exec(Run(t, steps[..j]), steps[j].now, steps[j].stmt).0
    decreases |steps|
  {
    RunFirst(t, steps, j + 1);
    if j == 0 {
      assert Run(t, steps[..0]) == t;
    } else {
      RunFirst(t, steps, j);
      RunSnoc(Exec(t, steps[0].now, steps[0].stmt).0, steps[1..], j - 1);
    }
  }

  /** A statement that logs the user in with a token. */
  predicate LogsIn(stmt: Stmt, user: string) {
    (stmt.Resume? || stmt.ValidateToken?) && stmt.user == user
  }

  /** Step `i` of the run logs the user in. */
  predicate LoggedIn(t: Tables, steps: seq<Timed>, user: string, i: nat)
    requires i < |steps|
  {
    LogsIn(steps[i].stmt, user) && Exec(Run(t, steps[..i]), steps[i].now, steps[i].stmt).1 == Applied(true)
  }

  /** When the token was last issued before step `j`: by the login before it, or at `at` to begin with. */
  function IssuedBy(t: Tables, at: int, steps: seq<Timed>, user: string, j: nat): int
    requires j <= |steps|
  {
    if j == 0 then at
    else if LoggedIn(t, steps, user, j - 1) then steps[j - 1].now
    else IssuedBy(t, at, steps, user, j - 1)
  }

  /** All logins before step `j` came from this address. */
  ghost predicate AllFrom(t: Tables, steps: seq<Timed>, user: string, j: nat, ip: string)
    requires j <= |steps|
  {
    forall i :: 0 <= i < j && LoggedIn(t, steps, user, i) ==> steps[i].stmt.ip == ip
  }

  ghost predicate NoLogin(t: Tables, steps: seq<Timed>, user: string, j: nat)
    requires j <= |steps|
  {
    forall i :: 0 <= i < j ==> !LoggedIn(t, steps, user, i)
  }

  ghost predicate NoNewToken(steps: seq<Timed>, user: string) {
    forall i :: 0 <= i < |steps| && steps[i].stmt.SetToken? ==> steps[i].stmt.user != user
  }

  /** What the row says of the token is what the run has made of it. */
  ghost predicate TokenKnown(t: Tables, at: int, token: nat, steps: seq<Timed>, user: string, j: nat)
    requires j <= |steps|
  {
    var now := Run(t, steps[..j]);
    && user in now.sessions
    && var s := now.sessions[user];
       && s.token == Some(token) && s.issuedAt == Some(IssuedBy(t, at, steps, user, j))
       && match s.peerIp
          case None => NoLogin(t, steps, user, j)
          case Some(ip) => !NoLogin(t, steps, user, j) && AllFrom(t, steps, user, j, ip)
  }

  /** Other statements leave the token alone. */
  lemma TokenUntouched(t: Tables, now: int, stmt: Stmt, user: string)
    requires user in t.sessions && (stmt.SetToken? ==> stmt.user != user)
    requires LogsIn(stmt, user) ==> Exec(t, now, stmt).1 != Applied(true)
    ensures user in Exec(t, now, stmt).0.sessions
    ensures var s, s' := t.sessions[user], Exec(t, now, stmt).0.sessions[user];
            s'.token == s.token && s'.issuedAt == s.issuedAt && s'.peerIp == s.peerIp
  {
  }

  lemma LoginTold(t: Tables, now: int, stmt: Stmt, user: string)
    requires SessionsOk(t) && LogsIn(stmt, user) && Exec(t, now, stmt).1 == Applied(true)
    ensures user in t.sessions && user in Exec(t, now, stmt).0.sessions
    ensures var s, s' := t.sessions[user], Exec(t, now, stmt).0.sessions[user];
            && s.token == s'.token == Some(stmt.token) && s'.issuedAt == Some(now) && s'.peerIp == Some(stmt.ip)
            && (s.peerIp == None || s.peerIp == Some(stmt.ip))
  {
    match stmt {
      case Resume(_, token, lease, threshold, ttl, ip) => ResumeExact(t, now, user, token, lease, threshold, ttl, ip);
      case ValidateToken(_, token, ttl, ip) => ValidateExact(t, now, user, token, ttl, ip);
    }
  }

  lemma TokenKnownNext(t: Tables, at: int, token: nat, steps: seq<Timed>, user: string, j: nat)
    requires SessionsOk(t) && j < |steps| && NoNewToken(steps, user) && TokenKnown(t, at, token, steps, user, j)
    ensures TokenKnown(t, at, token, steps, user, j + 1)
  {
    var before := Run(t, steps[..j]);
    RunSnoc(t, steps, j);
    RunSessionsOk(t, steps[..j]);
    if LoggedIn(t, steps, user, j) {
      LoginTold(before, steps[j].now, steps[j].stmt, user);
    } else {
      TokenUntouched(before, steps[j].now, steps[j].stmt, user);
    }
  }

  lemma {:induction false} TokenHistory(t: Tables, at: int, token: nat, steps: seq<Timed>, user: string, j: nat)
    requires SessionsOk(t) && j <= |steps| && NoNewToken(steps, user) && TokenKnown(t, at, token, steps, user, 0)
    ensures TokenKnown(t, at, token, steps, user, j)
  {
    if j > 0 {
      TokenHistory(t, at, token, steps, user, j - 1);
      TokenKnownNext(t, at, token, steps, user, j - 1);
    }
  }

  /** After a token is set, and until the next one is, a login succeeds exactly with that token, no later
      than its ttl after the token was set or last logged in with, from the address of all logins
      before it, and on a row free for the caller; a resume then makes the caller the holder. */
  lemma TokenOpensOnly(before: Tables, at: int, user: string, token: nat, steps: seq<Timed>, j: nat)
    requires SessionsOk(before) && NoNewToken(steps, user) && j < |steps| && LogsIn(steps[j].stmt, user)
    ensures var t := Exec(before, at, SetToken(user, token)).0;
            var here, now, stmt := Run(t, steps[..j]), steps[j].now, steps[j].stmt;
            var issued := IssuedBy(t, at, steps, user, j);
            && (LoggedIn(t, steps, user, j) <==>
                  && stmt.token == token && (now <= issued || now - issued <= stmt.ttl)
                  && AllFrom(t, steps, user, j, stmt.ip)
                  && if stmt.Resume? then FreeFor(here, user, now, stmt.lease, stmt.threshold)
                     else Holder(here, user) == None)
            && (LoggedIn(t, steps, user, j) && stmt.Resume? ==>
                  Holder(Run(t, steps[..j + 1]), user) == Some(stmt.lease))
  {
    var t := Exec(before, at, SetToken(user, token)).0;
    SetTokenExact(before, at, user, token);
    ExecSessionsOk(before, at, SetToken(user, token));
    assert steps[..0] == [];
    TokenHistory(t, at, token, steps, user, j);
    var here := Run(t, steps[..j]);
    RunSessionsOk(t, steps[..j]);
    RunSnoc(t, steps, j);
    match steps[j].stmt {
      case Resume(_, other, lease, threshold, ttl, ip) =>
        ResumeExact(here, steps[j].now, user, other, lease, threshold, ttl, ip);
      case ValidateToken(_, other, ttl, ip) =>
        ValidateExact(here, steps[j].now, user, other, ttl, ip);
    }
  }
}
