/** The log of events read as one life story per entity, and what every run of ticks keeps. */
module LifeStories {
  import opened Common
  import opened Life

  /** Whether somebody has a claim on the death. */
  datatype Claim = NoClaim | Open(killer: Ref) | Closed

  /** Where an entity's story stands; `Broken` if the events came in an order that makes no sense. */
  datatype Story =
    | IsAlive
    | IsDying(claim: Claim, since: nat)
    | IsDead(claim: Claim, since: nat)
    | Gone(last: Story)
    | Broken
  {
    /** Where it stood when the entity was last there. */
    function Last(): Story {
      if Gone? then last else this
    }
  }

  function Tell(story: Story, e: Event): Story {
    match e
    case Depleted(_, _) => if story.IsAlive? then story else Broken
    case DyingStarted(_, at) => if story.IsAlive? then IsDying(NoClaim, at) else Broken
    case Claimed(_, killer) =>
      if story.IsDying? && story.claim == NoClaim then IsDying(Open(killer), story.since) else Broken
    case DeathFinalized(_, at) => if story.IsDying? then IsDead(story.claim, at) else Broken
    case Settled(_, killer, _) =>
      if story.IsDead? && story.claim == Open(killer) then IsDead(Closed, story.since) else Broken
    case Restarted(_, at, how) =>
      if story.IsDead? && story.claim == NoClaim && SaturatingAdd(story.since, ComebackDelay(how)) <= at then IsAlive
      else Broken
    case Removed(_) => if story.Gone? || story.Broken? then Broken else Gone(story)
  }

  function StoryOf(log: seq<Event>, e: Entity): Story {
    if log == [] then IsAlive
    else
      var before := StoryOf(log[..|log| - 1], e);
      if log[|log| - 1].entity == e then Tell(before, log[|log| - 1]) else before
  }

  lemma StorySnoc(log: seq<Event>, ev: Event, e: Entity)
    ensures StoryOf(log + [ev], e) == if ev.entity == e then Tell(StoryOf(log, e), ev) else StoryOf(log, e)
  {
    assert (log + [ev])[..|log|] == log;
  }

  function ClaimOf(claim: Option<Ref>): Claim {
    if claim.Some? then Open(claim.value) else NoClaim
  }

  /** The story tells the actor's phase, claim and deadlines. */
  predicate Fits(story: Story, a: Actor) {
    match a.phase
    case Alive => story.IsAlive? && a.claim.None?
    case Dying(deadAt) =>
      story.IsDying? && story.claim == ClaimOf(a.claim) && deadAt == SaturatingAdd(story.since, DYING_TO_DEAD_DELAY)
    case Dead(_, _, _, _) =>
      && story.IsDead? && a.phase == DeathPhase(story.since, a)
      && (story.claim == ClaimOf(a.claim) || (story.claim.Closed? && a.claim.None? && a.kind.MobKind?))
  }

  /** A claim that is settled was made, by one who had depleted the entity, and it is dropped exactly
      when the claimant has left by then. */
  ghost predicate SettledRightly(log: seq<Event>, j: nat)
    requires j < |log|
  {
    log[j].Settled? ==>
      && Depleted(log[j].entity, log[j].killer) in log[..j]
      && Claimed(log[j].entity, log[j].killer) in log[..j]
      && (log[j].fate.Dropped? <==> StoryOf(log[..j], log[j].killer.entity).Gone?)
  }

  ghost predicate AllSettledRightly(log: seq<Event>, e: Entity) {
    forall j :: 0 <= j < |log| && log[j].entity == e ==> SettledRightly(log, j)
  }

  /** The claimant is the player it was, or gone. */
  ghost predicate ClaimantKnown(w: World, killer: Ref) {
    if killer.entity in w.actors then Matches(w, killer) && w.actors[killer.entity].kind.PlayerKind?
    else StoryOf(w.log, killer.entity).Gone?
  }

  ghost predicate ClaimOk(w: World, e: Entity)
    requires e in w.actors
  {
    var a := w.actors[e];
    a.claim.Some? ==>
      && a.kind.MobKind? && a.exp.Some? && ClaimantKnown(w, a.claim.value)
      && Depleted(e, a.claim.value) in w.log && Claimed(e, a.claim.value) in w.log
  }

  ghost predicate EntityOk(w: World, e: Entity) {
    && !StoryOf(w.log, e).Broken? && AllSettledRightly(w.log, e)
    && (e in w.actors ==> Fits(StoryOf(w.log, e), w.actors[e]) && ClaimOk(w, e))
  }

  /** Every story makes sense and fits its actor. */
  ghost predicate Sensible(w: World) {
    forall e :: EntityOk(w, e)
  }

  // ----- one event at a time

  lemma SettledSnoc(log: seq<Event>, ev: Event, e: Entity)
    requires AllSettledRightly(log, e)
    requires ev.Settled? && ev.entity == e ==>
               && Depleted(ev.entity, ev.killer) in log && Claimed(ev.entity, ev.killer) in log
               && (ev.fate.Dropped? <==> StoryOf(log, ev.killer.entity).Gone?)
    ensures AllSettledRightly(log + [ev], e)
  {
    forall j | 0 <= j < |log + [ev]| && (log + [ev])[j].entity == e ensures SettledRightly(log + [ev], j) {
      assert (log + [ev])[..j] == log[..j];
      if j < |log| {
        assert SettledRightly(log, j);
      } else {
        assert log[..j] == log;
      }
    }
  }

  /** Nobody comes, goes or changes identity from `w` to `w'`, and at most `who` changes at all. */
  ghost predicate SameActors(w: World, w': World, who: Entity) {
    && w'.actors.Keys == w.actors.Keys
    && (forall e :: e in w.actors ==>
          var a, b := w.actors[e], w'.actors[e];
          if e == who then a.netId == b.netId && a.kind == b.kind && a.exp == b.exp else a == b)
  }

  lemma ClaimantStays(w: World, w': World, ev: Event, who: Entity, killer: Ref)
    requires ClaimantKnown(w, killer) && SameActors(w, w', who) && who in w.actors && w'.log == w.log + [ev]
        && ev.entity == who
    ensures ClaimantKnown(w', killer)
  {
    StorySnoc(w.log, ev, killer.entity);
  }

  /** An event of an entity that stays, with the change it stands for. */
  lemma EventOk(w: World, w': World, ev: Event, e: Entity)
    requires EntityOk(w, e) && ev.entity in w.actors && SameActors(w, w', ev.entity) && w'.log == w.log + [ev]
    requires e == ev.entity ==>
               && Fits(Tell(StoryOf(w.log, e), ev), w'.actors[e])
               && (w'.actors[e].claim == w.actors[e].claim || w'.actors[e].claim == None || ClaimOk(w', e))
    requires e == ev.entity && ev.Settled? ==>
               && Depleted(e, ev.killer) in w.log && Claimed(e, ev.killer) in w.log
               && (ev.fate.Dropped? <==> StoryOf(w.log, ev.killer.entity).Gone?)
    ensures EntityOk(w', e)
  {
    StorySnoc(w.log, ev, e);
    SettledSnoc(w.log, ev, e);
    if e in w.actors && w'.actors[e].claim == w.actors[e].claim && w'.actors[e].claim.Some? {
      ClaimantStays(w, w', ev, ev.entity, w.actors[e].claim.value);
    }
  }

  /** A change of hit points, or none, without an event. */
  lemma NoEventOk(w: World, w': World, who: Entity, e: Entity)
    requires EntityOk(w, e) && SameActors(w, w', who) && w'.log == w.log
    requires e == who && e in w.actors ==> w'.actors[e] == w.actors[e].(hp := w'.actors[e].hp)
    ensures EntityOk(w', e)
  {
  }

  lemma DestroyOk(w: World, r: Ref)
    requires Sensible(w)
    ensures Sensible(Destroy(w, r))
  {
    var w', ev := Destroy(w, r), Removed(r.entity);
    if r.entity in w.actors {
      forall e ensures EntityOk(w', e) {
        assert EntityOk(w, e) && EntityOk(w, r.entity);
        StorySnoc(w.log, ev, e);
        SettledSnoc(w.log, ev, e);
        if e in w'.actors && w'.actors[e].claim.Some? {
          StorySnoc(w.log, ev, w'.actors[e].claim.value.entity);
        }
      }
    }
  }

  lemma BeginDyingOk(w: World, r: Ref, now: nat)
    requires Sensible(w)
    ensures Sensible(BeginDying(w, r, now)) && SameActors(w, BeginDying(w, r, now), r.entity)
    ensures BeginDying(w, r, now) != w <==>
              r.entity in w.actors && w.actors[r.entity].netId == r.netId && w.actors[r.entity].phase.Alive?
  {
    var w' := BeginDying(w, r, now);
    forall e ensures EntityOk(w', e) {
      assert EntityOk(w, e);
      if w' != w {
        EventOk(w, w', DyingStarted(r.entity, now), e);
      }
    }
  }

  lemma FinalizeDyingOk(w: World, r: Ref, now: nat)
    requires Sensible(w)
    ensures Sensible(FinalizeDying(w, r, now)) && SameActors(w, FinalizeDying(w, r, now), r.entity)
    ensures FinalizeDying(w, r, now) != w <==>
              r.entity in w.actors && w.actors[r.entity].netId == r.netId && w.actors[r.entity].phase.Dying?
  {
    var w' := FinalizeDying(w, r, now);
    forall e ensures EntityOk(w', e) {
      assert EntityOk(w, e);
      if w' != w {
        EventOk(w, w', DeathFinalized(r.entity, now), e);
      }
    }
  }

  lemma RestartOk(w: World, r: Restart, now: nat)
    requires Sensible(w)
    ensures Sensible(ProcessRestart(w, r, now)) && SameActors(w, ProcessRestart(w, r, now), r.entity)
  {
    var w' := ProcessRestart(w, r, now);
    forall e ensures EntityOk(w', e) {
      assert EntityOk(w, e);
      if w' != w {
        EventOk(w, w', Restarted(r.entity, now, r.how), e);
      }
    }
  }

  // ----- the facts of a tick

  /** A depletion of this tick: its two actors are there, and the log has it. */
  ghost predicate HitKnown(w: World, d: HpDepleted) {
    Depleted(d.victim.entity, d.killer) in w.log && Matches(w, d.victim) && Matches(w, d.killer)
  }

  ghost predicate DistinctVictims(ds: seq<HpDepleted>) {
    forall i, j :: 0 <= i < j < |ds| ==> ds[i].victim.entity != ds[j].victim.entity
  }

  /** Victims on the way from depleted to dying: still alive, and never depleted twice. */
  ghost predicate HitsFresh(w: World, ds: seq<HpDepleted>) {
    forall d :: d in ds ==>
      HitKnown(w, d) && w.actors[d.victim.entity].phase.Alive? && w.actors[d.victim.entity].hp <= 0
  }

  /** Victims on the way from dying to claimed. */
  ghost predicate HitsUnclaimed(w: World, ds: seq<HpDepleted>) {
    forall d :: d in ds ==>
      HitKnown(w, d) && w.actors[d.victim.entity].phase.Dying? && w.actors[d.victim.entity].claim.None?
  }

  /** Every mob on the finalised list is dead, and every dead actor with a claim is on it. */
  ghost predicate FinalizedOk(w: World) {
    && (forall r :: r in w.finalized && r.entity in w.actors && w.actors[r.entity].kind.MobKind? ==>
          w.actors[r.entity].phase.Dead?)
    && (forall e :: e in w.actors && w.actors[e].phase.Dead? && w.actors[e].claim.Some? ==>
          exists r :: r in w.finalized && r.entity == e)
  }

  lemma FinalizeKeepsList(w: World, r: Ref, now: nat)
    requires FinalizedOk(w)
    ensures FinalizedOk(FinalizeDying(w, r, now))
  {
    var w' := FinalizeDying(w, r, now);
    forall e | e in w'.actors && w'.actors[e].phase.Dead? && w'.actors[e].claim.Some?
      ensures exists x :: x in w'.finalized && x.entity == e
    {
      if w' != w && e == r.entity {
        assert r in w'.finalized;
      } else {
        var x :| x in w.finalized && x.entity == e;
        assert x in w'.finalized;
      }
    }
  }

  // ----- attacks

  lemma HitEntity(w: World, c: Attack, now: nat, e: Entity)
    requires Sensible(w) && c.attacker in w.actors && c.victim in w.actors
    requires w.actors[c.attacker].phase.Alive? && w.actors[c.victim].phase.Alive?
    ensures EntityOk(ProcessAttack(w, c, now), e) && SameActors(w, ProcessAttack(w, c, now), c.victim)
  {
    var w' := ProcessAttack(w, c, now);
    assert EntityOk(w, e);
    if w'.log != w.log {
      EventOk(w, w', Depleted(c.victim, Ref(c.attacker, w.actors[c.attacker].netId)), e);
    } else {
      NoEventOk(w, w', c.victim, e);
    }
  }

  ghost predicate InAttacks(w: World) {
    Sensible(w) && FinalizedOk(w) && HitsFresh(w, w.depleted) && DistinctVictims(w.depleted)
  }

  lemma HitFresh(w: World, c: Attack, now: nat, d: HpDepleted)
    requires InAttacks(w) && c.attacker in w.actors && c.victim in w.actors
    requires w.actors[c.attacker].phase.Alive? && w.actors[c.victim].phase.Alive?
    requires d in ProcessAttack(w, c, now).depleted
    ensures var w' := ProcessAttack(w, c, now);
            HitKnown(w', d) && w'.actors[d.victim.entity].phase.Alive? && w'.actors[d.victim.entity].hp <= 0
  {
    if d in w.depleted {
      assert HitKnown(w, d);
    }
  }

  lemma HitFacts(w: World, c: Attack, now: nat)
    requires InAttacks(w) && c.attacker in w.actors && c.victim in w.actors
    requires w.actors[c.attacker].phase.Alive? && w.actors[c.victim].phase.Alive?
    ensures HitsFresh(ProcessAttack(w, c, now), ProcessAttack(w, c, now).depleted)
    ensures DistinctVictims(ProcessAttack(w, c, now).depleted)
  {
    forall d | d in ProcessAttack(w, c, now).depleted
      ensures HitKnown(ProcessAttack(w, c, now), d)
    {
      HitFresh(w, c, now, d);
    }
    forall i | 0 <= i < |w.depleted| ensures w.actors[w.depleted[i].victim.entity].hp <= 0 {
      assert w.depleted[i] in w.depleted;
    }
  }

  lemma HitKeepsList(w: World, c: Attack, now: nat)
    requires FinalizedOk(w) && c.attacker in w.actors && c.victim in w.actors
    requires w.actors[c.attacker].phase.Alive? && w.actors[c.victim].phase.Alive?
    ensures FinalizedOk(ProcessAttack(w, c, now))
  {
  }

  lemma FinalizeKeepsHits(w: World, r: Ref, now: nat, ds: seq<HpDepleted>)
    requires HitsFresh(w, ds)
    ensures HitsFresh(FinalizeDying(w, r, now), ds)
  {
    forall d | d in ds ensures HitKnown(FinalizeDying(w, r, now), d) {
      assert HitKnown(w, d);
    }
  }

  lemma ProcessAttackOk(w: World, c: Attack, now: nat)
    requires InAttacks(w)
    ensures InAttacks(ProcessAttack(w, c, now))
  {
    var w' := ProcessAttack(w, c, now);
    if c.attacker in w.actors && c.victim in w.actors && w.actors[c.attacker].phase.Alive? {
      if w.actors[c.victim].phase.Dying? {
        var ref := Ref(c.victim, w.actors[c.victim].netId);
        FinalizeDyingOk(w, ref, now);
        FinalizeKeepsList(w, ref, now);
        FinalizeKeepsHits(w, ref, now, w.depleted);
      } else if w.actors[c.victim].phase.Alive? {
        forall e ensures EntityOk(w', e) {
          HitEntity(w, c, now, e);
        }
        HitFacts(w, c, now);
        HitKeepsList(w, c, now);
      }
    }
  }

  lemma {:induction false} AttacksOk(w: World, cs: seq<Attack>, now: nat)
    requires InAttacks(w)
    ensures InAttacks(Attacks(w, cs, now))
    decreases |cs|
  {
    if cs != [] {
      ProcessAttackOk(w, cs[0], now);
      AttacksOk(ProcessAttack(w, cs[0], now), cs[1..], now);
    }
  }

  // ----- dying and claims

  /** What life events and claims leave alone. */
  ghost predicate SameLists(w: World, w': World) {
    w'.depleted == w.depleted && w'.finalized == w.finalized && w.log <= w'.log
  }

  lemma HitStays(w: World, w': World, d: HpDepleted, who: Entity)
    requires HitKnown(w, d) && SameActors(w, w', who) && w.log <= w'.log
    ensures HitKnown(w', d)
  {
  }

  /** One victim starts dying; the others are as they were. */
  lemma BeginDyingStep(w: World, ds: seq<HpDepleted>, now: nat)
    requires Sensible(w) && FinalizedOk(w) && ds != [] && HitsFresh(w, ds) && DistinctVictims(ds)
    ensures var w' := BeginDying(w, ds[0].victim, now);
            && Sensible(w') && FinalizedOk(w') && SameLists(w, w') && SameActors(w, w', ds[0].victim.entity)
            && HitsFresh(w', ds[1..]) && HitsUnclaimed(w', ds[..1])
  {
    var v, w' := ds[0].victim, BeginDying(w, ds[0].victim, now);
    BeginDyingOk(w, v, now);
    assert EntityOk(w, v.entity) && ds[0] in ds;
    forall d | d in ds ensures HitKnown(w', d) {
      HitStays(w, w', d, v.entity);
    }
    forall k | 0 <= k < |ds[1..]| ensures ds[1..][k] in ds && ds[1..][k].victim.entity != v.entity {
      assert ds[1..][k] == ds[k + 1];
    }
  }

  ghost predicate SameOutside(w: World, w': World, ds: seq<HpDepleted>) {
    && w'.actors.Keys == w.actors.Keys
    && (forall e :: e in w.actors ==> w'.actors[e].netId == w.actors[e].netId)
    && (forall e :: e in w.actors && (forall i :: 0 <= i < |ds| ==> ds[i].victim.entity != e) ==>
        w'.actors[e] == w.actors[e])
  }

  lemma LifeEventsJoin(w: World, w1: World, w': World, ds: seq<HpDepleted>)
    requires ds != [] && DistinctVictims(ds) && SameLists(w, w1) && SameLists(w1, w')
    requires SameActors(w, w1, ds[0].victim.entity) && SameOutside(w1, w', ds[1..])
    requires HitsUnclaimed(w1, ds[..1]) && HitsUnclaimed(w', ds[1..])
    ensures SameOutside(w, w', ds) && HitsUnclaimed(w', ds)
  {
    var v := ds[0].victim.entity;
    forall k | 0 <= k < |ds[1..]| ensures ds[1..][k].victim.entity != v {
      assert ds[1..][k] == ds[k + 1];
    }
    assert ds[..1][0] == ds[0];
    forall d | d in ds
      ensures HitKnown(w', d) && w'.actors[d.victim.entity].phase.Dying? && w'.actors[d.victim.entity].claim.None?
    {
      if d == ds[0] {
        assert d in ds[..1] && HitKnown(w1, d);
      } else {
        assert d in ds[1..];
      }
    }
    forall e | e in w.actors && (forall i :: 0 <= i < |ds| ==> ds[i].victim.entity != e)
      ensures w'.actors[e] == w.actors[e]
    {
      forall i | 0 <= i < |ds[1..]| ensures ds[1..][i].victim.entity != e {
        assert ds[1..][i] == ds[i + 1];
      }
      assert ds[0].victim.entity != e;
    }
  }

  lemma {:induction false} LifeEventsOk(w: World, ds: seq<HpDepleted>, now: nat)
    requires Sensible(w) && FinalizedOk(w) && HitsFresh(w, ds) && DistinctVictims(ds)
    ensures var w' := LifeEvents(w, ds, now);
            && Sensible(w') && FinalizedOk(w') && SameLists(w, w') && SameOutside(w, w', ds) && HitsUnclaimed(w', ds)
    decreases |ds|
  {
    if ds != [] {
      var w1, rest := BeginDying(w, ds[0].victim, now), ds[1..];
      BeginDyingStep(w, ds, now);
      assert forall i, j :: 0 <= i < j < |rest| ==> rest[i] == ds[i + 1] && rest[j] == ds[j + 1];
      LifeEventsOk(w1, rest, now);
      LifeEventsJoin(w, w1, LifeEvents(w1, rest, now), ds);
    }
  }

  lemma RecordClaimStep(w: World, ds: seq<HpDepleted>)
    requires Sensible(w) && FinalizedOk(w) && ds != [] && HitsUnclaimed(w, ds) && DistinctVictims(ds)
    ensures var w' := RecordClaim(w, ds[0]);
            Sensible(w') && FinalizedOk(w') && SameLists(w, w') && HitsUnclaimed(w', ds[1..])
  {
    var d, w' := ds[0], RecordClaim(w, ds[0]);
    var v := d.victim.entity;
    assert d in ds && HitKnown(w, d);
    forall e ensures EntityOk(w', e) {
      assert EntityOk(w, e);
      if w' != w {
        EventOk(w, w', Claimed(v, d.killer), e);
      }
    }
    forall k | 0 <= k < |ds[1..]| ensures ds[1..][k] in ds && ds[1..][k].victim.entity != v {
      assert ds[1..][k] == ds[k + 1];
    }
    forall x | x in ds[1..] ensures HitKnown(w', x) {
      HitStays(w, w', x, v);
    }
  }

  lemma {:induction false} RecordClaimsOk(w: World, ds: seq<HpDepleted>)
    requires Sensible(w) && FinalizedOk(w) && HitsUnclaimed(w, ds) && DistinctVictims(ds)
    ensures Sensible(RecordClaims(w, ds)) && FinalizedOk(RecordClaims(w, ds))
    decreases |ds|
  {
    if ds != [] {
      RecordClaimStep(w, ds);
      assert forall i, j :: 0 <= i < j < |ds[1..]| ==> ds[1..][i] == ds[i + 1] && ds[1..][j] == ds[j + 1];
      RecordClaimsOk(RecordClaim(w, ds[0]), ds[1..]);
    }
  }

  // ----- timers, restarts and rewards

  lemma AgeOk(w: World, e: Entity, now: nat)
    requires Sensible(w) && FinalizedOk(w)
    ensures Sensible(Age(w, e, now)) && FinalizedOk(Age(w, e, now)) && SameActors(w, Age(w, e, now), e)
  {
    var w' := Age(w, e, now);
    if e in w.actors {
      FinalizeDyingOk(w, Ref(e, w.actors[e].netId), now);
      FinalizeKeepsList(w, Ref(e, w.actors[e].netId), now);
    }
    forall x ensures EntityOk(w', x) {
      assert EntityOk(w, x);
      if w'.log == w.log {
        NoEventOk(w, w', e, x);
      }
    }
  }

  lemma {:induction false} LifecycleOk(w: World, es: seq<Entity>, now: nat)
    requires Sensible(w) && FinalizedOk(w)
    ensures Sensible(Lifecycle(w, es, now)) && FinalizedOk(Lifecycle(w, es, now))
    decreases |es|
  {
    if es != [] {
      AgeOk(w, es[0], now);
      LifecycleOk(Age(w, es[0], now), es[1..], now);
    }
  }

  lemma {:induction false} RestartsOk(w: World, rs: seq<Restart>, now: nat)
    requires Sensible(w) && FinalizedOk(w)
    ensures Sensible(Restarts(w, rs, now)) && FinalizedOk(Restarts(w, rs, now))
    decreases |rs|
  {
    if rs != [] {
      RestartOk(w, rs[0], now);
      RestartsOk(ProcessRestart(w, rs[0], now), rs[1..], now);
    }
  }

  /** Claims on the deaths of a list are settled, and no other claim is touched. */
  ghost predicate OnlyTheseOpen(w: World, ds: seq<Ref>) {
    forall e :: e in w.actors && w.actors[e].phase.Dead? && w.actors[e].claim.Some? ==>
        exists r :: r in ds && r.entity == e
  }

  ghost predicate ListDead(w: World, ds: seq<Ref>) {
    forall r :: r in ds && r.entity in w.actors && w.actors[r.entity].kind.MobKind? ==> w.actors[r.entity].phase.Dead?
  }

  lemma GrantEntity(w: World, death: Ref, refused: set<Entity>, e: Entity)
    requires Sensible(w) && ListDead(w, [death])
    ensures EntityOk(Grant(w, death, refused), e)
  {
    var w' := Grant(w, death, refused);
    assert death in [death];
    assert EntityOk(w, e) && EntityOk(w, death.entity);
    if w' != w {
      var killer := w.actors[death.entity].claim.value;
      assert EntityOk(w, killer.entity);
      EventOk(w, w', w'.log[|w.log|], e);
    }
  }

  lemma GrantStep(w: World, ds: seq<Ref>, refused: set<Entity>)
    requires Sensible(w) && ds != [] && ListDead(w, ds) && OnlyTheseOpen(w, ds)
    ensures var w' := Grant(w, ds[0], refused);
            Sensible(w') && ListDead(w', ds[1..]) && OnlyTheseOpen(w', ds[1..])
  {
    var w' := Grant(w, ds[0], refused);
    assert EntityOk(w, ds[0].entity);
    forall e ensures EntityOk(w', e) {
      GrantEntity(w, ds[0], refused, e);
    }
    forall e | e in w'.actors && w'.actors[e].phase.Dead? && w'.actors[e].claim.Some?
      ensures exists r :: r in ds[1..] && r.entity == e
    {
      var r :| r in ds && r.entity == e;
      assert r in ds[1..];
    }
  }

  lemma {:induction false} GrantsOk(w: World, ds: seq<Ref>, refused: set<Entity>)
    requires Sensible(w) && ListDead(w, ds) && OnlyTheseOpen(w, ds)
    ensures Sensible(Grants(w, ds, refused)) && OnlyTheseOpen(Grants(w, ds, refused), [])
    decreases |ds|
  {
    if ds != [] {
      GrantStep(w, ds, refused);
      GrantsOk(Grant(w, ds[0], refused), ds[1..], refused);
    }
  }

  lemma {:induction false} CleanupsOk(w: World, rs: seq<Ref>)
    requires Sensible(w) && OnlyTheseOpen(w, [])
    ensures Sensible(Cleanups(w, rs)) && OnlyTheseOpen(Cleanups(w, rs), [])
    decreases |rs|
  {
    if rs != [] {
      DestroyOk(w, rs[0]);
      CleanupsOk(Destroy(w, rs[0]), rs[1..]);
    }
  }

  // ----- whole ticks and runs

  predicate NoFacts(w: World) {
    w.depleted == [] && w.dying == [] && w.finalized == [] && w.cleanup == []
  }

  /** Between ticks: stories make sense, no fact is left over, and no dead actor has an open claim. */
  ghost predicate Rested(w: World) {
    Sensible(w) && NoFacts(w) && OnlyTheseOpen(w, [])
  }

  lemma ResetOk(w: World)
    requires Sensible(w) && OnlyTheseOpen(w, [])
    ensures Rested(w.(depleted := [], dying := [], finalized := [], cleanup := []))
  {
    var w' := w.(depleted := [], dying := [], finalized := [], cleanup := []);
    forall e ensures EntityOk(w', e) {
      assert EntityOk(w, e);
      NoEventOk(w, w', 0, e);
    }
  }

  /** The first half of the chain, up to the recorded claims. */
  lemma CombatOk(w: World, input: Input)
    requires Rested(w)
    ensures var w1 := Attacks(w, input.attacks, input.now);
            var w2 := LifeEvents(w1, w1.depleted, input.now);
            Sensible(RecordClaims(w2, w2.depleted)) && FinalizedOk(RecordClaims(w2, w2.depleted))
  {
    var w1 := Attacks(w, input.attacks, input.now);
    AttacksOk(w, input.attacks, input.now);
    LifeEventsOk(w1, w1.depleted, input.now);
    RecordClaimsOk(LifeEvents(w1, w1.depleted, input.now), w1.depleted);
  }

  /** The second half. */
  lemma AftermathOk(w3: World, input: Input)
    requires Sensible(w3) && FinalizedOk(w3)
    ensures var w5 := Revived(Lifecycle(w3, input.order, input.now), input);
            var w6 := Grants(w5, w5.finalized, input.refused);
            Sensible(Cleanups(w6, w6.cleanup)) && OnlyTheseOpen(Cleanups(w6, w6.cleanup), [])
  {
    var w4 := Lifecycle(w3, input.order, input.now);
    LifecycleOk(w3, input.order, input.now);
    RestartsOk(w4, input.requests, input.now);
    RestartsOk(Restarts(w4, input.requests, input.now), ForcedRestarts(input.order, input.forcedHp), input.now);
    var w5 := Revived(w4, input);
    GrantsOk(w5, w5.finalized, input.refused);
    var w6 := Grants(w5, w5.finalized, input.refused);
    CleanupsOk(w6, w6.cleanup);
  }

  lemma TickOk(w: World, input: Input)
    requires Rested(w)
    ensures Rested(Tick(w, input))
  {
    var w1 := Attacks(w, input.attacks, input.now);
    var w2 := LifeEvents(w1, w1.depleted, input.now);
    var w3 := RecordClaims(w2, w2.depleted);
    CombatOk(w, input);
    AftermathOk(w3, input);
    var w5 := Revived(Lifecycle(w3, input.order, input.now), input);
    var w6 := Grants(w5, w5.finalized, input.refused);
    ResetOk(Cleanups(w6, w6.cleanup));
  }

  lemma {:induction false} FreshStory(log: seq<Event>, e: Entity)
    requires forall k :: 0 <= k < |log| ==> log[k].entity != e
    ensures StoryOf(log, e) == IsAlive
    decreases |log|
  {
    if log != [] {
      FreshStory(log[..|log| - 1], e);
    }
  }

  lemma SpawnOk(w: World, step: RunStep)
    requires Rested(w) && step.Spawn? && Enabled(w, step)
    ensures Rested(Next(w, step))
  {
    FreshStory(w.log, step.entity);
    forall e ensures EntityOk(Next(w, step), e) {
      assert EntityOk(w, e);
    }
  }

  lemma BetweenTicksOk(w: World, step: RunStep)
    requires Rested(w) && (step.Leave? || step.SetHp?)
    ensures Rested(Next(w, step))
  {
    var w' := Next(w, step);
    if step.Leave? {
      DestroyOk(w, step.player);
    } else {
      forall e ensures EntityOk(w', e) {
        assert EntityOk(w, e);
        NoEventOk(w, w', step.entity, e);
      }
    }
  }

  lemma {:induction false} RunRested(w: World, steps: seq<RunStep>, w': World)
    requires Rested(w) && Runs(w, steps, w')
    ensures Rested(w')
    decreases |steps|
  {
    if steps != [] {
      match steps[0] {
        case DoTick(input) => TickOk(w, input);
        case Spawn(_, _, _, _, _, _) => SpawnOk(w, steps[0]);
        case _ => BetweenTicksOk(w, steps[0]);
      }
      RunRested(Next(w, steps[0]), steps[1..], w');
    }
  }

  lemma EmptyRested()
    ensures Rested(EMPTY)
  {
    forall e ensures EntityOk(EMPTY, e) {
      assert StoryOf([], e) == IsAlive;
    }
  }

  /** Over any run the events of every entity make sense in their order: one dying fact for each
      departure from Alive, at most one finalised fact before it is Alive again, nothing once it is
      gone.  The story tells the actor's phase with its deadlines, and its claim. */
  lemma StoriesHold(steps: seq<RunStep>, w: World, e: Entity)
    requires Runs(EMPTY, steps, w)
    ensures !StoryOf(w.log, e).Broken? && AllSettledRightly(w.log, e)
    ensures e in w.actors ==> Fits(StoryOf(w.log, e), w.actors[e])
  {
    EmptyRested();
    RunRested(EMPTY, steps, w);
    assert EntityOk(w, e);
  }

  // ----- counting

  datatype Count = Count(dying: nat, finalized: nat, restarted: nat, claimed: nat, settled: nat)

  function Tally(log: seq<Event>, e: Entity): Count {
    if log == [] then Count(0, 0, 0, 0, 0)
    else
      var c, ev := Tally(log[..|log| - 1], e), log[|log| - 1];
      if ev.entity != e then c
      else match ev
        case DyingStarted(_, _) => c.(dying := c.dying + 1)
        case Claimed(_, _) => c.(claimed := c.claimed + 1)
        case DeathFinalized(_, _) => c.(finalized := c.finalized + 1)
        case Settled(_, _, _) => c.(settled := c.settled + 1)
        case Restarted(_, _, _) => c.(restarted := c.restarted + 1)
        case _ => c
  }

  function AsNat(b: bool): nat {
    if b then 1 else 0
  }

  function ClaimIn(s: Story): Claim {
    if s.IsDying? || s.IsDead? then s.claim else NoClaim
  }

  /** A sensible story fixes its own arithmetic. */
  lemma {:induction false} StoryCounts(log: seq<Event>, e: Entity)
    requires !StoryOf(log, e).Broken?
    ensures var c, s := Tally(log, e), StoryOf(log, e).Last();
            && !s.Gone? && !s.Broken?
            && c.dying == c.finalized + AsNat(s.IsDying?)
            && c.finalized == c.restarted + AsNat(s.IsDead?)
            && c.claimed == AsNat(!ClaimIn(s).NoClaim?) && c.settled == AsNat(ClaimIn(s).Closed?)
            && (s.IsDying? ==> !s.claim.Closed?)
    decreases |log|
  {
    if log != [] {
      StoryCounts(log[..|log| - 1], e);
    }
  }

  /** In any run: departures from Alive, finalisations and restarts of an entity differ by at most
      the one under way; a kill is claimed at most once and settled at most once. */
  lemma DeathsAddUp(steps: seq<RunStep>, w: World, e: Entity)
    requires Runs(EMPTY, steps, w)
    ensures var c := Tally(w.log, e);
            && c.finalized <= c.dying <= c.finalized + 1 && c.restarted <= c.finalized <= c.restarted + 1
            && c.dying <= c.restarted + 1 && c.settled <= c.claimed <= 1
    ensures e in w.actors ==>
              var c := Tally(w.log, e);
              && c.dying - c.restarted == AsNat(!w.actors[e].phase.Alive?)
              && c.finalized - c.restarted == AsNat(w.actors[e].phase.Dead?)
  {
    StoriesHold(steps, w, e);
    StoryCounts(w.log, e);
  }

  /** Every claim on a death is settled in the tick that makes the death final: in any run, an entity
      that is there has an open claim exactly while it is dying with one. */
  lemma ClaimsSettled(steps: seq<RunStep>, w: World, e: Entity)
    requires Runs(EMPTY, steps, w) && e in w.actors
    ensures var c := Tally(w.log, e);
            && c.claimed == c.settled + AsNat(w.actors[e].claim.Some?)
            && (w.actors[e].claim.Some? ==> w.actors[e].phase.Dying?)
  {
    EmptyRested();
    RunRested(EMPTY, steps, w);
    assert EntityOk(w, e);
    StoryCounts(w.log, e);
  }

  /** A story that makes sense is over exactly when the entity was removed. */
  lemma {:induction false} GoneExact(log: seq<Event>, e: Entity)
    requires !StoryOf(log, e).Broken?
    ensures StoryOf(log, e).Gone? <==> Removed(e) in log
    decreases |log|
  {
    if log != [] {
      var prev, last := log[..|log| - 1], log[|log| - 1];
      GoneExact(prev, e);
      assert log == prev + [last];
      assert Removed(e) in log <==> Removed(e) in prev || last == Removed(e);
    }
  }

  lemma {:induction false} NeverBroken(log: seq<Event>, e: Entity, n: nat)
    requires n <= |log| && !StoryOf(log, e).Broken?
    ensures !StoryOf(log[..n], e).Broken?
    decreases |log|
  {
    if n == |log| {
      assert log[..n] == log;
    } else {
      NeverBroken(log[..|log| - 1], e, n);
      assert log[..|log| - 1][..n] == log[..n];
    }
  }

  /** In any run a settled claim was that of a claimant who had depleted the entity; it is dropped
      exactly when the claimant has left by then. */
  lemma ClaimsSettledRightly(steps: seq<RunStep>, w: World, j: nat)
    requires Runs(EMPTY, steps, w) && j < |w.log| && w.log[j].Settled?
    ensures Depleted(w.log[j].entity, w.log[j].killer) in w.log[..j]
        && Claimed(w.log[j].entity, w.log[j].killer) in w.log[..j]
    ensures w.log[j].fate.Dropped? <==> Removed(w.log[j].killer.entity) in w.log[..j]
  {
    StoriesHold(steps, w, w.log[j].entity);
    StoriesHold(steps, w, w.log[j].killer.entity);
    assert SettledRightly(w.log, j);
    NeverBroken(w.log, w.log[j].killer.entity, j);
    GoneExact(w.log[..j], w.log[j].killer.entity);
  }

  // ----- after a removal

  lemma OverOnceRemoved(log: seq<Event>, e: Entity, i: nat, j: nat)
    requires i < j < |log| && log[i] == Removed(e) && !StoryOf(log, e).Broken?
    ensures log[j].entity != e
  {
    NeverBroken(log, e, j);
    NeverBroken(log, e, j + 1);
    assert log[..j][i] == Removed(e);
    GoneExact(log[..j], e);
    assert log[..j + 1] == log[..j] + [log[j]];
    StorySnoc(log[..j], log[j], e);
  }

  /** In any run, nothing happens to an entity after it was removed, and a claim it still had on a kill
      is dropped. */
  lemma NothingAfterRemoval(steps: seq<RunStep>, w: World, i: nat, j: nat)
    requires Runs(EMPTY, steps, w) && i < j < |w.log| && w.log[i].Removed?
    ensures w.log[j].entity != w.log[i].entity
    ensures w.log[j].Settled? && w.log[j].killer.entity == w.log[i].entity ==> w.log[j].fate.Dropped?
  {
    StoriesHold(steps, w, w.log[i].entity);
    OverOnceRemoved(w.log, w.log[i].entity, i, j);
    if w.log[j].Settled? {
      ClaimsSettledRightly(steps, w, j);
      assert w.log[i] in w.log[..j];
    }
  }

  // ----- restarts

  /** Entry `i` made the entity's death final, and nothing happened to the entity after it. */
  ghost predicate LastFinalized(log: seq<Event>, e: Entity, since: nat, i: nat) {
    i < |log| && log[i] == DeathFinalized(e, since) && forall k :: i < k < |log| ==> log[k].entity != e
  }

  lemma {:induction false} DeadSince(log: seq<Event>, e: Entity) returns (i: nat)
    requires StoryOf(log, e).IsDead? && StoryOf(log, e).claim == NoClaim
    ensures LastFinalized(log, e, StoryOf(log, e).since, i)
    decreases |log|
  {
    if log[|log| - 1].entity == e {
      i := |log| - 1;
    } else {
      i := DeadSince(log[..|log| - 1], e);
      assert log[..|log| - 1][i] == log[i];
    }
  }

  /** An event that has not broken the story fits the story before it. */
  lemma NotBrokenBy(log: seq<Event>, j: nat)
    requires j < |log| && !StoryOf(log, log[j].entity).Broken?
    ensures !Tell(StoryOf(log[..j], log[j].entity), log[j]).Broken?
  {
    NeverBroken(log, log[j].entity, j + 1);
    assert log[..j + 1] == log[..j] + [log[j]];
    StorySnoc(log[..j], log[j], log[j].entity);
  }

  /** In any run a player comes back only from a final death and not before the delay for its way of
      coming back has passed since then. */
  lemma RestartsWait(steps: seq<RunStep>, w: World, j: nat) returns (i: nat)
    requires Runs(EMPTY, steps, w) && j < |w.log| && w.log[j].Restarted?
    ensures i < j && w.log[i].DeathFinalized? && w.log[i].entity == w.log[j].entity
    ensures forall k :: i < k < j ==> w.log[k].entity != w.log[j].entity
    ensures SaturatingAdd(w.log[i].at, ComebackDelay(w.log[j].how)) <= w.log[j].at
  {
    StoriesHold(steps, w, w.log[j].entity);
    NotBrokenBy(w.log, j);
    i := DeadSince(w.log[..j], w.log[j].entity);
    assert forall k :: 0 <= k < j ==> w.log[..j][k] == w.log[k];
  }

  // ----- a claim dropped

  const HUNTER := Ref(1, 11)
  const PREY := Ref(2, 22)

  const KILLED := [Depleted(2, HUNTER), DyingStarted(2, 0), Claimed(2, HUNTER)]

  const CORPSE := Dead(None, None, None, Some(9022))

  function HunterThere(): Actor {
    Actor(11, PlayerKind, Alive, 50, true, None, None)
  }

  function PreyIn(phase: Phase, hp: int, claim: Option<Ref>): Actor {
    Actor(22, MobKind, phase, hp, true, Some(10), claim)
  }

  function Quiet(actors: map<Entity, Actor>, log: seq<Event>): World {
    World(actors, [], [], [], [], log)
  }

  function Hunt(prey: Actor, log: seq<Event>): World {
    Quiet(map[1 := HunterThere(), 2 := prey], log)
  }

  const HIT := HpDepleted(PREY, HUNTER)

  /** The attack, the start of dying and the claim. */
  lemma KillSteps()
    ensures var w := Hunt(PreyIn(Alive, 5, None), []);
            var w1 := Hunt(PreyIn(Alive, -4, None), [Depleted(2, HUNTER)]).(depleted := [HIT]);
            var w2 := Hunt(PreyIn(Dying(3000), -4, None), [Depleted(2, HUNTER), DyingStarted(2, 0)])
                        .(depleted := [HIT], dying := [PREY]);
            && ProcessAttack(w, Attack(1, 2, 9), 0) == w1 && BeginDying(w1, PREY, 0) == w2
            && RecordClaim(w2, HIT) == w2.(actors := Hunt(PreyIn(Dying(3000), -4, Some(HUNTER)), []).actors,
                log := KILLED)
  {
  }

  lemma OneEach(w: World, c: Attack, d: HpDepleted, r: Ref, e: Entity, now: nat, refused: set<Entity>)
    ensures Attacks(w, [c], now) == ProcessAttack(w, c, now) && LifeEvents(w, [d], now) == BeginDying(w, d.victim, now)
    ensures RecordClaims(w, [d]) == RecordClaim(w, d) && Lifecycle(w, [e], now) == Age(w, e, now)
    ensures Grants(w, [r], refused) == Grant(w, r, refused)
  {
  }

  /** The tick of the kill: depleted, dying, claimed. */
  lemma KillTick()
    ensures Tick(Hunt(PreyIn(Alive, 5, None), []), Input(0, [Attack(1, 2, 9)], [], [], map[], {}))
         == Hunt(PreyIn(Dying(3000), -4, Some(HUNTER)), KILLED)
  {
    var w := Hunt(PreyIn(Alive, 5, None), []);
    KillSteps();
    OneEach(w, Attack(1, 2, 9), HIT, PREY, 2, 0, {});
    var w1 := ProcessAttack(w, Attack(1, 2, 9), 0);
    OneEach(w1, Attack(1, 2, 9), HIT, PREY, 2, 0, {});
    OneEach(BeginDying(w1, PREY, 0), Attack(1, 2, 9), HIT, PREY, 2, 0, {});
  }

  /** The tick in which the death becomes final, the hunter gone. */
  lemma DropTick(log: seq<Event>)
    ensures Tick(Quiet(map[2 := PreyIn(Dying(3000), -4, Some(HUNTER))], log), Input(3000, [], [2], [], map[], {}))
         == Quiet(map[2 := PreyIn(CORPSE, -4, None)], log + [DeathFinalized(2, 3000)] + [Settled(2, HUNTER, Dropped)])
  {
    var w := Quiet(map[2 := PreyIn(Dying(3000), -4, Some(HUNTER))], log);
    var w4 := w.(actors := map[2 := PreyIn(CORPSE, -4, Some(HUNTER))], finalized := [PREY],
                  log := log + [DeathFinalized(2, 3000)]);
    assert Age(w, 2, 3000) == w4;
    assert Lifecycle(w, [2], 3000) == w4;
    var forced := ForcedRestarts([2], map[]);
    assert forced == [Restart(2, Forced, 0)] && Restarts(w4, forced, 3000) == w4;
    var w6 := w4.(actors := map[2 := PreyIn(CORPSE, -4, None)], log := w4.log + [Settled(2, HUNTER, Dropped)]);
    assert Grant(w4, PREY, {}) == w6;
    assert Grants(w4, [PREY], {}) == w6;
  }

  lemma Prepend(w: World, step: RunStep, next: World, rest: seq<RunStep>, w': World)
    requires Enabled(w, step) && next == Next(w, step) && Runs(next, rest, w')
    ensures Runs(w, [step] + rest, w')
  {
    assert ([step] + rest)[1..] == rest;
  }

  lemma HunterLeaves(log: seq<Event>, prey: Actor)
    ensures LeavePlayer(Hunt(prey, log), HUNTER) == Quiet(map[2 := prey], log + [Removed(1)])
  {
    assert map[1 := HunterThere(), 2 := prey] - {1} == map[2 := prey];
  }

  lemma SpawnHunt(rest: seq<RunStep>, end: World) returns (steps: seq<RunStep>)
    requires Runs(Hunt(PreyIn(Alive, 5, None), []), rest, end)
    ensures Runs(EMPTY, steps, end)
  {
    var a, b := Spawn(1, 11, PlayerKind, 50, true, None), Spawn(2, 22, MobKind, 5, true, Some(10));
    var one := Quiet(map[1 := HunterThere()], []);
    Prepend(one, b, Hunt(PreyIn(Alive, 5, None), []), rest, end);
    Prepend(EMPTY, a, one, [b] + rest, end);
    steps := [a] + ([b] + rest);
  }

  /** A player depletes a mob and leaves before its death is final: the claim is dropped. */
  lemma DroppedClaimExample() returns (steps: seq<RunStep>)
    ensures Runs(EMPTY, steps, Quiet(map[2 := PreyIn(CORPSE, -4, None)],
                                     KILLED + [Removed(1)] + [DeathFinalized(2, 3000)] + [Settled(2, HUNTER, Dropped)]))
  {
    var kill := DoTick(Input(0, [Attack(1, 2, 9)], [], [], map[], {}));
    var drop := DoTick(Input(3000, [], [2], [], map[], {}));
    var dying := PreyIn(Dying(3000), -4, Some(HUNTER));
    var w3, w4 := Hunt(dying, KILLED), Quiet(map[2 := dying], KILLED + [Removed(1)]);
    var w5 := Next(w4, drop);
    DropTick(KILLED + [Removed(1)]);
    Prepend(w4, drop, w5, [], w5);
    HunterLeaves(KILLED, dying);
    Prepend(w3, Leave(HUNTER), w4, [drop], w5);
    KillTick();
    steps := [kill] + ([Leave(HUNTER)] + [drop]);
    Prepend(Hunt(PreyIn(Alive, 5, None), []), kill, w3, [Leave(HUNTER)] + [drop], w5);
    steps := SpawnHunt(steps, w5);
  }
}
