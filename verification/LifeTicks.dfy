/** What one tick does to an actor: hits, claims, deadlines, comebacks and corpses. */
module LifeTicks {
  import opened Common
  import opened Life
  import opened LifeStories

  // ----- deadlines

  predicate DyingDue(w: World, e: Entity, now: nat) {
    e in w.actors && w.actors[e].phase.Dying? && w.actors[e].phase.deadAt <= now
  }

  predicate ForcedDue(w: World, e: Entity, now: nat) {
    e in w.actors && w.actors[e].kind.PlayerKind? && ComebackDue(w.actors[e], Forced, now)
  }

  lemma {:induction false} LifecycleInTime(w: World, es: seq<Entity>, now: nat, e: Entity)
    requires e in es || !DyingDue(w, e, now)
    ensures !DyingDue(Lifecycle(w, es, now), e, now)
    decreases |es|
  {
    if es != [] {
      LifecycleInTime(Age(w, es[0], now), es[1..], now, e);
    }
  }

  lemma {:induction false} RestartsInTime(w: World, rs: seq<Restart>, now: nat, e: Entity)
    requires !DyingDue(w, e, now)
    requires (exists i :: 0 <= i < |rs| && rs[i].entity == e && rs[i].how == Forced) || !ForcedDue(w, e, now)
    ensures !DyingDue(Restarts(w, rs, now), e, now) && !ForcedDue(Restarts(w, rs, now), e, now)
    decreases |rs|
  {
    if rs != [] {
      var w1 := ProcessRestart(w, rs[0], now);
      if ForcedDue(w1, e, now) {
        var i :| 0 <= i < |rs| && rs[i].entity == e && rs[i].how == Forced;
        assert rs[1..][i - 1] == rs[i];
      }
      RestartsInTime(w1, rs[1..], now, e);
    }
  }

  lemma {:induction false} RestartsNotDying(w: World, rs: seq<Restart>, now: nat, e: Entity)
    requires !DyingDue(w, e, now)
    ensures !DyingDue(Restarts(w, rs, now), e, now)
    decreases |rs|
  {
    if rs != [] {
      RestartsNotDying(ProcessRestart(w, rs[0], now), rs[1..], now, e);
    }
  }

  lemma {:induction false} GrantsInTime(w: World, ds: seq<Ref>, refused: set<Entity>, now: nat, e: Entity)
    requires !DyingDue(w, e, now) && !ForcedDue(w, e, now)
    ensures !DyingDue(Grants(w, ds, refused), e, now) && !ForcedDue(Grants(w, ds, refused), e, now)
    decreases |ds|
  {
    if ds != [] {
      GrantsInTime(Grant(w, ds[0], refused), ds[1..], refused, now, e);
    }
  }

  lemma {:induction false} CleanupsInTime(w: World, rs: seq<Ref>, now: nat, e: Entity)
    requires !DyingDue(w, e, now) && !ForcedDue(w, e, now)
    ensures !DyingDue(Cleanups(w, rs), e, now) && !ForcedDue(Cleanups(w, rs), e, now)
    decreases |rs|
  {
    if rs != [] {
      CleanupsInTime(Destroy(w, rs[0]), rs[1..], now, e);
    }
  }

  predicate CorpseDue(w: World, e: Entity, now: nat) {
    && e in w.actors && w.actors[e].kind.MobKind? && w.actors[e].phase.Dead?
    && w.actors[e].phase.cleanupAt.Some? && w.actors[e].phase.cleanupAt.value <= now
  }

  // ----- the dead

  ghost predicate Listed(rs: seq<Ref>, e: Entity) {
    exists i :: 0 <= i < |rs| && rs[i].entity == e
  }

  /** The dead keep everything but, at most, the claim. */
  predicate StaysPut(w: World, w': World, e: Entity)
    requires e in w.actors
  {
    e in w'.actors && w'.actors[e] == w.actors[e].(claim := w'.actors[e].claim)
  }

  predicate IsDeadActor(w: World, e: Entity) {
    e in w.actors && w.actors[e].phase.Dead?
  }

  lemma {:induction false} AttacksLeaveDead(w: World, cs: seq<Attack>, now: nat, e: Entity)
    requires IsDeadActor(w, e)
    ensures StaysPut(w, Attacks(w, cs, now), e)
    decreases |cs|
  {
    if cs != [] {
      AttacksLeaveDead(ProcessAttack(w, cs[0], now), cs[1..], now, e);
    }
  }

  lemma {:induction false} LifeEventsLeaveDead(w: World, ds: seq<HpDepleted>, now: nat, e: Entity)
    requires IsDeadActor(w, e)
    ensures StaysPut(w, LifeEvents(w, ds, now), e)
    decreases |ds|
  {
    if ds != [] {
      LifeEventsLeaveDead(BeginDying(w, ds[0].victim, now), ds[1..], now, e);
    }
  }

  lemma {:induction false} ClaimsLeaveDead(w: World, ds: seq<HpDepleted>, e: Entity)
    requires IsDeadActor(w, e)
    ensures StaysPut(w, RecordClaims(w, ds), e)
    decreases |ds|
  {
    if ds != [] {
      ClaimsLeaveDead(RecordClaim(w, ds[0]), ds[1..], e);
    }
  }

  lemma AgeLists(w: World, x: Entity, now: nat, e: Entity)
    requires IsDeadActor(w, e)
    ensures StaysPut(w, Age(w, x, now), e)
    ensures Listed(Age(w, x, now).cleanup, e) <==> Listed(w.cleanup, e) || (x == e && CorpseDue(w, e, now))
  {
    var w' := Age(w, x, now);
    if Listed(w.cleanup, e) {
      var i :| 0 <= i < |w.cleanup| && w.cleanup[i].entity == e;
      assert w'.cleanup[i].entity == e;
    } else if x == e && CorpseDue(w, e, now) {
      assert w'.cleanup[|w.cleanup|].entity == e;
    }
  }

  lemma {:induction false} LifecycleLists(w: World, es: seq<Entity>, now: nat, e: Entity)
    requires IsDeadActor(w, e)
    ensures var w' := Lifecycle(w, es, now);
            StaysPut(w, w', e) && (Listed(w'.cleanup, e) <==> Listed(w.cleanup, e) || (e in es && CorpseDue(w, e, now)))
    decreases |es|
  {
    if es != [] {
      AgeLists(w, es[0], now, e);
      LifecycleLists(Age(w, es[0], now), es[1..], now, e);
    }
  }

  lemma {:induction false} AttacksKeepList(w: World, cs: seq<Attack>, now: nat)
    ensures Attacks(w, cs, now).cleanup == w.cleanup
    decreases |cs|
  {
    if cs != [] {
      AttacksKeepList(ProcessAttack(w, cs[0], now), cs[1..], now);
    }
  }

  lemma {:induction false} LifeEventsKeepList(w: World, ds: seq<HpDepleted>, now: nat)
    ensures LifeEvents(w, ds, now).cleanup == w.cleanup
    decreases |ds|
  {
    if ds != [] {
      LifeEventsKeepList(BeginDying(w, ds[0].victim, now), ds[1..], now);
    }
  }

  lemma {:induction false} ClaimsKeepList(w: World, ds: seq<HpDepleted>)
    ensures RecordClaims(w, ds).cleanup == w.cleanup
    decreases |ds|
  {
    if ds != [] {
      ClaimsKeepList(RecordClaim(w, ds[0]), ds[1..]);
    }
  }

  /** The tick up to the recorded claims. */
  function Fought(w: World, input: Input): World {
    var w1 := Attacks(w, input.attacks, input.now);
    var w2 := LifeEvents(w1, w1.depleted, input.now);
    RecordClaims(w2, w2.depleted)
  }

  lemma FoughtKeepsList(w: World, input: Input)
    ensures Fought(w, input).cleanup == w.cleanup
  {
    var w1 := Attacks(w, input.attacks, input.now);
    var w2 := LifeEvents(w1, w1.depleted, input.now);
    AttacksKeepList(w, input.attacks, input.now);
    LifeEventsKeepList(w1, w1.depleted, input.now);
    ClaimsKeepList(w2, w2.depleted);
  }

  /** The tick up to the timed deaths and the list of corpses. */
  function Aged(w: World, input: Input): World {
    Lifecycle(Fought(w, input), input.order, input.now)
  }

  lemma DeadFought(w1: World, ds: seq<HpDepleted>, now: nat, e: Entity)
    requires IsDeadActor(w1, e)
    ensures var w2 := LifeEvents(w1, ds, now);
            StaysPut(w1, RecordClaims(w2, w2.depleted), e)
  {
    var w2 := LifeEvents(w1, ds, now);
    LifeEventsLeaveDead(w1, ds, now, e);
    ClaimsLeaveDead(w2, w2.depleted, e);
  }

  lemma DeadAged(w: World, input: Input, e: Entity)
    requires IsDeadActor(w, e)
    ensures StaysPut(w, Aged(w, input), e)
    ensures Listed(Aged(w, input).cleanup, e) <==>
              Listed(w.cleanup, e) || (e in input.order && CorpseDue(w, e, input.now))
  {
    AttacksLeaveDead(w, input.attacks, input.now, e);
    var w1 := Attacks(w, input.attacks, input.now);
    DeadFought(w1, w1.depleted, input.now, e);
    FoughtKeepsList(w, input);
    LifecycleLists(Fought(w, input), input.order, input.now, e);
  }

  lemma {:induction false} RestartsKeepList(w: World, rs: seq<Restart>, now: nat)
    ensures Restarts(w, rs, now).cleanup == w.cleanup
    decreases |rs|
  {
    if rs != [] {
      RestartsKeepList(ProcessRestart(w, rs[0], now), rs[1..], now);
    }
  }

  lemma {:induction false} GrantsKeepList(w: World, ds: seq<Ref>, refused: set<Entity>)
    ensures Grants(w, ds, refused).cleanup == w.cleanup
    decreases |ds|
  {
    if ds != [] {
      GrantsKeepList(Grant(w, ds[0], refused), ds[1..], refused);
    }
  }

  lemma {:induction false} GrantsLeave(w: World, ds: seq<Ref>, refused: set<Entity>, e: Entity)
    requires e in w.actors
    ensures StaysPut(w, Grants(w, ds, refused), e)
    decreases |ds|
  {
    if ds != [] {
      GrantsLeave(Grant(w, ds[0], refused), ds[1..], refused, e);
    }
  }

  lemma {:induction false} CleanupsGone(w: World, rs: seq<Ref>, e: Entity)
    requires e !in w.actors
    ensures e !in Cleanups(w, rs).actors
    decreases |rs|
  {
    if rs != [] {
      CleanupsGone(Destroy(w, rs[0]), rs[1..], e);
    }
  }

  lemma {:induction false} CleanupsExact(w: World, rs: seq<Ref>, e: Entity)
    requires e in w.actors
    ensures e in Cleanups(w, rs).actors <==> !Listed(rs, e)
    ensures e in Cleanups(w, rs).actors ==> Cleanups(w, rs).actors[e] == w.actors[e]
    decreases |rs|
  {
    if rs != [] {
      if rs[0].entity == e {
        CleanupsGone(Destroy(w, rs[0]), rs[1..], e);
      } else {
        assert Listed(rs, e) <==> Listed(rs[1..], e) by {
          if Listed(rs, e) {
            var i :| 0 <= i < |rs| && rs[i].entity == e;
            assert rs[1..][i - 1] == rs[i];
          }
        }
        CleanupsExact(Destroy(w, rs[0]), rs[1..], e);
      }
    }
  }

  lemma {:induction false} RestartsLeave(w: World, rs: seq<Restart>, now: nat, e: Entity)
    requires e in w.actors && (!w.actors[e].phase.Dead? || w.actors[e].kind.MobKind?)
    ensures e in Restarts(w, rs, now).actors && Restarts(w, rs, now).actors[e] == w.actors[e]
    decreases |rs|
  {
    if rs != [] {
      RestartsLeave(ProcessRestart(w, rs[0], now), rs[1..], now, e);
    }
  }

  /** Restarts do the first thing asked for the entity that is due, and nothing after it. */
  lemma {:induction false} RestartsExact(w: World, rs: seq<Restart>, now: nat, e: Entity) returns (k: nat)
    requires IsDeadActor(w, e) && w.actors[e].kind.PlayerKind?
    ensures k <= |rs| && e in Restarts(w, rs, now).actors
    ensures forall i :: 0 <= i < k && rs[i].entity == e ==> !ComebackDue(w.actors[e], rs[i].how, now)
    ensures k < |rs| ==>
              && rs[k].entity == e && ComebackDue(w.actors[e], rs[k].how, now)
              && Restarts(w, rs, now).actors[e] == w.actors[e].(phase := Alive, hp := rs[k].hp)
    ensures k == |rs| ==> Restarts(w, rs, now).actors[e] == w.actors[e]
    decreases |rs|
  {
    if rs == [] {
      k := 0;
    } else if rs[0].entity == e && ComebackDue(w.actors[e], rs[0].how, now) {
      k := 0;
      RestartsLeave(ProcessRestart(w, rs[0], now), rs[1..], now, e);
    } else {
      var j := RestartsExact(ProcessRestart(w, rs[0], now), rs[1..], now, e);
      k := j + 1;
    }
  }

  /** The end of the tick: rewards and cleanup. */
  lemma TickEnds(w: World, input: Input, e: Entity)
    requires e in Revived(Aged(w, input), input).actors
    ensures var w5 := Revived(Aged(w, input), input);
            && (e in Tick(w, input).actors <==> !Listed(Aged(w, input).cleanup, e))
            && (e in Tick(w, input).actors ==> StaysPut(w5, Tick(w, input), e))
  {
    var w4 := Aged(w, input);
    var w5 := Revived(w4, input);
    RestartsKeepList(w4, input.requests, input.now);
    RestartsKeepList(Restarts(w4, input.requests, input.now), ForcedRestarts(input.order, input.forcedHp), input.now);
    GrantsKeepList(w5, w5.finalized, input.refused);
    GrantsLeave(w5, w5.finalized, input.refused, e);
    var w6 := Grants(w5, w5.finalized, input.refused);
    CleanupsExact(w6, w6.cleanup, e);
  }

  /** A mob whose corpse is due is listed and destroyed, and no other. */
  lemma CorpseGoes(w: World, input: Input, e: Entity)
    requires IsDeadActor(w, e) && w.actors[e].kind.MobKind?
    ensures e !in Tick(w, input).actors <==>
              Listed(w.cleanup, e) || (e in input.order && CorpseDue(w, e, input.now))
    ensures e in Tick(w, input).actors ==> StaysPut(w, Tick(w, input), e)
  {
    var w4 := Aged(w, input);
    DeadAged(w, input, e);
    RestartsLeave(w4, input.requests, input.now, e);
    RestartsLeave(Restarts(w4, input.requests, input.now), ForcedRestarts(input.order, input.forcedHp), input.now, e);
    TickEnds(w, input, e);
  }

  /** A tick whose queries visit an entity leaves it neither dying nor waiting for its forced respawn
      past the deadline, and a corpse whose time had come is gone. */
  lemma DeadlinesMet(w: World, input: Input, e: Entity)
    requires e in input.order
    ensures !DyingDue(Tick(w, input), e, input.now) && !ForcedDue(Tick(w, input), e, input.now)
    ensures CorpseDue(w, e, input.now) ==> e !in Tick(w, input).actors
  {
    var w1 := Attacks(w, input.attacks, input.now);
    var w2 := LifeEvents(w1, w1.depleted, input.now);
    var w3 := RecordClaims(w2, w2.depleted);
    var w4 := Lifecycle(w3, input.order, input.now);
    LifecycleInTime(w3, input.order, input.now, e);
    var forced := ForcedRestarts(input.order, input.forcedHp);
    RestartsNotDying(w4, input.requests, input.now, e);
    var i :| 0 <= i < |input.order| && input.order[i] == e;
    assert forced[i].entity == e && forced[i].how == Forced;
    RestartsInTime(Restarts(w4, input.requests, input.now), forced, input.now, e);
    var w5 := Revived(w4, input);
    GrantsInTime(w5, w5.finalized, input.refused, input.now, e);
    var w6 := Grants(w5, w5.finalized, input.refused);
    CleanupsInTime(w6, w6.cleanup, input.now, e);
    if CorpseDue(w, e, input.now) {
      CorpseGoes(w, input, e);
    }
  }

  // ----- the deadlines of a death

  /** At least `delay` has passed since `at`; at the largest instant every deadline has. */
  predicate Passed(at: nat, delay: nat, now: nat) {
    at + delay <= now || U64_MAX <= now
  }

  /** Entry `i` made the entity's death final, and at most its claim was settled since. */
  ghost predicate LastDeath(log: seq<Event>, e: Entity, at: nat, i: nat) {
    && i < |log| && log[i] == DeathFinalized(e, at)
    && forall k :: i < k < |log| && log[k].entity == e ==> log[k].Settled?
  }

  lemma {:induction false} DeathTold(log: seq<Event>, e: Entity, at: nat, i: nat)
    requires LastDeath(log, e, at, i) && !StoryOf(log, e).Broken?
    ensures StoryOf(log, e).IsDead? && StoryOf(log, e).since == at
    decreases |log|
  {
    if i < |log| - 1 {
      var before := log[..|log| - 1];
      NeverBroken(log, e, |log| - 1);
      assert forall k :: 0 <= k < |before| ==> before[k] == log[k];
      DeathTold(before, e, at, i);
    }
  }

  /** A player waits ten seconds to restart where it died, seven to restart in town, three minutes at
      the most. */
  function Patience(how: Comeback): nat {
    match how
    case Here => 10000
    case Town => 7000
    case Forced => 180000
  }

  /** The dead actor may come back from when its death became final at `at` plus its patience. */
  ghost predicate ComesBackFrom(a: Actor, at: nat) {
    && a.phase.Dead?
    && forall how, now :: ComebackDue(a, how, now) <==> a.kind.PlayerKind? && Passed(at, Patience(how), now)
  }

  lemma DeathFits(w: World, e: Entity, at: nat, i: nat)
    requires EntityOk(w, e) && e in w.actors && LastDeath(w.log, e, at, i)
    ensures w.actors[e].phase == DeathPhase(at, w.actors[e])
  {
    DeathTold(w.log, e, at, i);
  }

  lemma DeadlinesTold(steps: seq<RunStep>, w: World, e: Entity, at: nat, i: nat)
    requires Runs(EMPTY, steps, w) && e in w.actors && LastDeath(w.log, e, at, i)
    ensures ComesBackFrom(w.actors[e], at) && w.cleanup == []
    ensures forall now :: CorpseDue(w, e, now) <==>
              w.actors[e].kind.MobKind? && Passed(at, 6000 + w.actors[e].netId % 4000, now)
  {
    EmptyRested();
    RunRested(EMPTY, steps, w);
    DeathFits(w, e, at, i);
  }

  /** Among the restarts there is one of the entity whose wait is over. */
  ghost predicate AsksInTime(rs: seq<Restart>, e: Entity, at: nat, now: nat) {
    exists k :: 0 <= k < |rs| && rs[k].entity == e && Passed(at, Patience(rs[k].how), now)
  }

  lemma ForcedAsks(order: seq<Entity>, hp: map<Entity, int>, e: Entity, at: nat, now: nat)
    ensures AsksInTime(ForcedRestarts(order, hp), e, at, now) <==> e in order && Passed(at, 180000, now)
  {
    var rs := ForcedRestarts(order, hp);
    if e in order && Passed(at, 180000, now) {
      var i :| 0 <= i < |order| && order[i] == e;
      assert rs[i].entity == e && rs[i].how == Forced;
    }
  }

  /** The first restart of the entity whose wait is over, if there is one. */
  ghost predicate FirstInTime(rs: seq<Restart>, e: Entity, at: nat, now: nat, k: nat) {
    && k <= |rs| && (k < |rs| ==> rs[k].entity == e && Passed(at, Patience(rs[k].how), now))
    && forall i :: 0 <= i < k && rs[i].entity == e ==> !Passed(at, Patience(rs[i].how), now)
  }

  lemma RestartsInTimeExact(w: World, rs: seq<Restart>, now: nat, e: Entity, at: nat) returns (k: nat)
    requires e in w.actors && w.actors[e].kind.PlayerKind? && ComesBackFrom(w.actors[e], at)
    ensures e in Restarts(w, rs, now).actors
    ensures Restarts(w, rs, now).actors[e].phase.Alive? <==> AsksInTime(rs, e, at, now)
    ensures !AsksInTime(rs, e, at, now) ==> Restarts(w, rs, now).actors[e] == w.actors[e]
    ensures FirstInTime(rs, e, at, now, k)
    ensures k < |rs| ==> Restarts(w, rs, now).actors[e].hp == rs[k].hp
  {
    k := RestartsExact(w, rs, now, e);
  }

  /** In every run, once a player's death is final a tick brings it back exactly if it asks to restart
      and has waited long enough for the way it asks for, or is visited after three minutes; it has the
      hit points of the first such request, or else of a forced respawn. */
  lemma ComebackExact(steps: seq<RunStep>, w: World, e: Entity, at: nat, i: nat, input: Input) returns (k: nat)
    requires Runs(EMPTY, steps, w) && e in w.actors && w.actors[e].kind.PlayerKind? && LastDeath(w.log, e, at, i)
    ensures var w' := Tick(w, input);
            && e in w'.actors && (w'.actors[e].phase.Alive? || w'.actors[e].phase == w.actors[e].phase)
            && (w'.actors[e].phase.Alive? <==>
                  || AsksInTime(input.requests, e, at, input.now)
                  || (e in input.order && Passed(at, 180000, input.now)))
    ensures FirstInTime(input.requests, e, at, input.now, k)
    ensures var a := Tick(w, input).actors[e];
            a.phase.Alive? ==>
              a.hp == if k < |input.requests| then input.requests[k].hp
                      else if e in input.forcedHp then input.forcedHp[e] else 0
  {
    DeadlinesTold(steps, w, e, at, i);
    DeadAged(w, input, e);
    var w4 := Aged(w, input);
    k := RestartsInTimeExact(w4, input.requests, input.now, e, at);
    var asked, forced := Restarts(w4, input.requests, input.now), ForcedRestarts(input.order, input.forcedHp);
    ForcedAsks(input.order, input.forcedHp, e, at, input.now);
    if asked.actors[e].phase.Alive? {
      RestartsLeave(asked, forced, input.now, e);
    } else {
      var f := RestartsInTimeExact(asked, forced, input.now, e, at);
      assert f < |forced| ==> forced[f].entity == e;
    }
    TickEnds(w, input, e);
  }

  /** In every run, once a mob's death is final a tick removes it exactly if it is visited after six to
      ten seconds, by its net id. */
  lemma CorpseExact(steps: seq<RunStep>, w: World, e: Entity, at: nat, i: nat, input: Input)
    requires Runs(EMPTY, steps, w) && e in w.actors && w.actors[e].kind.MobKind? && LastDeath(w.log, e, at, i)
    ensures var w' := Tick(w, input);
            && (e !in w'.actors <==> e in input.order && Passed(at, 6000 + w.actors[e].netId % 4000, input.now))
            && (e in w'.actors ==> w'.actors[e].phase == w.actors[e].phase)
  {
    DeadlinesTold(steps, w, e, at, i);
    CorpseGoes(w, input, e);
  }

  // ----- the dying

  /** Entry `i` has the entity start dying, and at most the kill was claimed since. */
  ghost predicate LastDying(log: seq<Event>, e: Entity, at: nat, i: nat) {
    && i < |log| && log[i] == DyingStarted(e, at)
    && forall k :: i < k < |log| && log[k].entity == e ==> log[k].Claimed?
  }

  lemma {:induction false} DyingTold(log: seq<Event>, e: Entity, at: nat, i: nat)
    requires LastDying(log, e, at, i) && !StoryOf(log, e).Broken?
    ensures StoryOf(log, e).IsDying? && StoryOf(log, e).since == at
    decreases |log|
  {
    if i < |log| - 1 {
      var before := log[..|log| - 1];
      NeverBroken(log, e, |log| - 1);
      assert forall k :: 0 <= k < |before| ==> before[k] == log[k];
      DyingTold(before, e, at, i);
    }
  }

  predicate Lives(w: World, e: Entity) {
    e in w.actors && w.actors[e].phase.Alive?
  }

  /** Some attack is made on the entity by a living attacker, and it can be fought. */
  ghost predicate Struck(w: World, cs: seq<Attack>, e: Entity)
    requires e in w.actors
  {
    w.actors[e].fights && exists i :: 0 <= i < |cs| && cs[i].victim == e && Lives(w, cs[i].attacker)
  }

  predicate IsDyingActor(w: World, e: Entity) {
    e in w.actors && w.actors[e].phase.Dying?
  }

  /** An attack neither begins nor ends a life. */
  lemma AttackKeepsLiving(w: World, c: Attack, now: nat, x: Entity)
    ensures Lives(ProcessAttack(w, c, now), x) <==> Lives(w, x)
    ensures x in ProcessAttack(w, c, now).actors <==> x in w.actors
    ensures x in w.actors ==> ProcessAttack(w, c, now).actors[x].fights == w.actors[x].fights
  {
  }

  lemma StruckTail(w: World, cs: seq<Attack>, now: nat, e: Entity)
    requires e in w.actors && cs != []
    ensures e in ProcessAttack(w, cs[0], now).actors
    ensures Struck(w, cs, e) <==>
              || (w.actors[e].fights && cs[0].victim == e && Lives(w, cs[0].attacker))
              || Struck(ProcessAttack(w, cs[0], now), cs[1..], e)
  {
    var w', rest := ProcessAttack(w, cs[0], now), cs[1..];
    AttackKeepsLiving(w, cs[0], now, e);
    forall i | 0 <= i < |rest|
      ensures rest[i] == cs[i + 1] && (Lives(w', rest[i].attacker) <==> Lives(w, rest[i].attacker))
    {
      AttackKeepsLiving(w, cs[0], now, rest[i].attacker);
    }
    if Struck(w, cs, e) && !(cs[0].victim == e && Lives(w, cs[0].attacker)) {
      var i :| 0 <= i < |cs| && cs[i].victim == e && Lives(w, cs[i].attacker);
      assert rest[i - 1].victim == e;
    }
  }

  /** An attack finalises a dying victim, and nothing else happens to it. */
  lemma {:induction false} AttacksExact(w: World, cs: seq<Attack>, now: nat, e: Entity)
    requires IsDyingActor(w, e)
    ensures var w' := Attacks(w, cs, now);
            if Struck(w, cs, e) then IsDeadActor(w', e) else e in w'.actors && w'.actors[e] == w.actors[e]
    decreases |cs|
  {
    if cs != [] {
      var w1 := ProcessAttack(w, cs[0], now);
      StruckTail(w, cs, now, e);
      if IsDyingActor(w1, e) {
        AttacksExact(w1, cs[1..], now, e);
      } else {
        AttacksLeaveDead(w1, cs[1..], now, e);
      }
    }
  }

  lemma {:induction false} LifeEventsLeaveDying(w: World, ds: seq<HpDepleted>, now: nat, e: Entity)
    requires IsDyingActor(w, e)
    ensures e in LifeEvents(w, ds, now).actors && LifeEvents(w, ds, now).actors[e] == w.actors[e]
    decreases |ds|
  {
    if ds != [] {
      LifeEventsLeaveDying(BeginDying(w, ds[0].victim, now), ds[1..], now, e);
    }
  }

  lemma {:induction false} ClaimsLeaveDying(w: World, ds: seq<HpDepleted>, e: Entity)
    requires IsDyingActor(w, e)
    ensures StaysPut(w, RecordClaims(w, ds), e)
    decreases |ds|
  {
    if ds != [] {
      ClaimsLeaveDying(RecordClaim(w, ds[0]), ds[1..], e);
    }
  }

  lemma DyingNotListed(w: World, x: Entity, now: nat, e: Entity)
    requires IsDyingActor(w, e)
    ensures Listed(Age(w, x, now).cleanup, e) <==> Listed(w.cleanup, e)
  {
    if Listed(w.cleanup, e) {
      var i :| 0 <= i < |w.cleanup| && w.cleanup[i].entity == e;
      assert Age(w, x, now).cleanup[i].entity == e;
    }
  }

  lemma {:induction false} LifecycleExact(w: World, es: seq<Entity>, now: nat, e: Entity)
    requires IsDyingActor(w, e)
    ensures var w', due := Lifecycle(w, es, now), e in es && w.actors[e].phase.deadAt <= now;
            && (if due then IsDeadActor(w', e) else e in w'.actors && w'.actors[e] == w.actors[e])
            && (!due ==> (Listed(w'.cleanup, e) <==> Listed(w.cleanup, e)))
    decreases |es|
  {
    if es != [] {
      var w1 := Age(w, es[0], now);
      if IsDyingActor(w1, e) {
        DyingNotListed(w, es[0], now, e);
        LifecycleExact(w1, es[1..], now, e);
      } else {
        LifecycleLists(w1, es[1..], now, e);
      }
    }
  }

  lemma DyingFought(w: World, input: Input, e: Entity)
    requires IsDyingActor(w, e)
    ensures if Struck(w, input.attacks, e) then IsDeadActor(Fought(w, input), e) else StaysPut(w, Fought(w, input), e)
  {
    AttacksExact(w, input.attacks, input.now, e);
    var w1 := Attacks(w, input.attacks, input.now);
    if Struck(w, input.attacks, e) {
      DeadFought(w1, w1.depleted, input.now, e);
    } else {
      LifeEventsLeaveDying(w1, w1.depleted, input.now, e);
      var w2 := LifeEvents(w1, w1.depleted, input.now);
      ClaimsLeaveDying(w2, w2.depleted, e);
    }
  }

  lemma {:induction false} RestartsNoDying(w: World, rs: seq<Restart>, now: nat, e: Entity)
    requires IsDeadActor(w, e) || Lives(w, e)
    ensures IsDeadActor(Restarts(w, rs, now), e) || Lives(Restarts(w, rs, now), e)
    decreases |rs|
  {
    if rs != [] {
      RestartsNoDying(ProcessRestart(w, rs[0], now), rs[1..], now, e);
    }
  }

  /** Whoever is dead when deaths have been timed is not dying at the end of the tick. */
  lemma DeadByThen(w: World, input: Input, e: Entity)
    requires IsDeadActor(Aged(w, input), e)
    ensures !IsDyingActor(Tick(w, input), e)
  {
    var w4 := Aged(w, input);
    RestartsNoDying(w4, input.requests, input.now, e);
    RestartsNoDying(Restarts(w4, input.requests, input.now), ForcedRestarts(input.order, input.forcedHp), input.now, e);
    TickEnds(w, input, e);
  }

  lemma DyingStays(w: World, input: Input, e: Entity)
    requires IsDyingActor(Aged(w, input), e) && !Listed(Aged(w, input).cleanup, e)
    ensures e in Tick(w, input).actors && Tick(w, input).actors[e].phase == Aged(w, input).actors[e].phase
  {
    var w4 := Aged(w, input);
    RestartsLeave(w4, input.requests, input.now, e);
    RestartsLeave(Restarts(w4, input.requests, input.now), ForcedRestarts(input.order, input.forcedHp), input.now, e);
    TickEnds(w, input, e);
  }

  lemma DyingInTick(w: World, input: Input, e: Entity)
    requires IsDyingActor(w, e) && w.cleanup == []
    ensures var over := Struck(w, input.attacks, e) || (e in input.order && w.actors[e].phase.deadAt <= input.now);
            if over then !IsDyingActor(Tick(w, input), e)
            else e in Tick(w, input).actors && Tick(w, input).actors[e].phase == w.actors[e].phase
  {
    var w3 := Fought(w, input);
    DyingFought(w, input, e);
    FoughtKeepsList(w, input);
    if Struck(w, input.attacks, e) {
      LifecycleLists(w3, input.order, input.now, e);
      DeadByThen(w, input, e);
    } else {
      LifecycleExact(w3, input.order, input.now, e);
      if e in input.order && w.actors[e].phase.deadAt <= input.now {
        DeadByThen(w, input, e);
      } else {
        DyingStays(w, input, e);
      }
    }
  }

  /** In every run a dying actor dies in a tick exactly if a living one strikes it, or it is visited
      after three seconds. */
  lemma DyingExact(steps: seq<RunStep>, w: World, e: Entity, at: nat, i: nat, input: Input)
    requires Runs(EMPTY, steps, w) && e in w.actors && LastDying(w.log, e, at, i)
    ensures !IsDyingActor(Tick(w, input), e) <==>
              Struck(w, input.attacks, e) || (e in input.order && Passed(at, 3000, input.now))
  {
    EmptyRested();
    RunRested(EMPTY, steps, w);
    assert EntityOk(w, e);
    DyingTold(w.log, e, at, i);
    DyingInTick(w, input, e);
  }

  // ----- hits, claims and rewards

  predicate Fights(w: World, e: Entity) {
    Lives(w, e) && w.actors[e].fights
  }

  /** What the attacks on the entity by living fighters add up to. */
  function Damage(w: World, cs: seq<Attack>, e: Entity): nat {
    if cs == [] then 0
    else Damage(w, cs[..|cs| - 1], e)
         + var c := cs[|cs| - 1]; if c.victim == e && Fights(w, c.attacker) then c.damage else 0
  }

  lemma {:induction false} AttacksSnoc(w: World, cs: seq<Attack>, now: nat)
    requires cs != []
    ensures Attacks(w, cs, now) == ProcessAttack(Attacks(w, cs[..|cs| - 1], now), cs[|cs| - 1], now)
    decreases |cs|
  {
    if |cs| > 1 {
      AttacksSnoc(ProcessAttack(w, cs[0], now), cs[1..], now);
      assert cs[1..][..|cs[1..]| - 1] == cs[..|cs| - 1][1..];
    }
  }

  lemma {:induction false} AttacksKeepFighters(w: World, cs: seq<Attack>, now: nat, x: Entity)
    ensures Fights(Attacks(w, cs, now), x) <==> Fights(w, x)
    decreases |cs|
  {
    if cs != [] {
      AttackKeepsLiving(w, cs[0], now, x);
      AttacksKeepFighters(ProcessAttack(w, cs[0], now), cs[1..], now, x);
    }
  }

  ghost predicate Downed(ds: seq<HpDepleted>, e: Entity) {
    exists i :: 0 <= i < |ds| && ds[i].victim.entity == e
  }

  lemma HitExact(w: World, c: Attack, now: nat, e: Entity)
    requires Fights(w, e)
    ensures var w', d := ProcessAttack(w, c, now), if c.victim == e && Fights(w, c.attacker) then c.damage else 0;
            && e in w'.actors && w'.actors[e] == w.actors[e].(hp := w.actors[e].hp - d)
            && (Downed(w'.depleted, e) <==> Downed(w.depleted, e) || (w.actors[e].hp > 0 && w.actors[e].hp - d <= 0))
  {
    var w' := ProcessAttack(w, c, now);
    if Downed(w.depleted, e) {
      var i :| 0 <= i < |w.depleted| && w.depleted[i].victim.entity == e;
      assert w'.depleted[i].victim.entity == e;
    } else if w'.depleted != w.depleted && c.victim == e {
      assert w'.depleted[|w.depleted|].victim.entity == e;
    }
  }

  /** Over all attacks of a tick a living fighter loses the hit points dealt to it and nothing else,
      and is depleted exactly if that takes its last one. */
  lemma {:induction false} HitsAddUp(w: World, cs: seq<Attack>, now: nat, e: Entity)
    requires Fights(w, e)
    ensures var w', left := Attacks(w, cs, now), w.actors[e].hp - Damage(w, cs, e);
            && e in w'.actors && w'.actors[e] == w.actors[e].(hp := left)
            && (Downed(w'.depleted, e) <==> Downed(w.depleted, e) || (w.actors[e].hp > 0 && left <= 0))
    decreases |cs|
  {
    if cs != [] {
      var before, c := Attacks(w, cs[..|cs| - 1], now), cs[|cs| - 1];
      HitsAddUp(w, cs[..|cs| - 1], now, e);
      AttacksSnoc(w, cs, now);
      AttacksKeepFighters(w, cs[..|cs| - 1], now, c.attacker);
      HitExact(before, c, now, e);
    }
  }

  /** Whether a kill is worth a claim: a player killed a mob that gives experience. */
  predicate WorthClaim(w: World, d: HpDepleted)
    requires d.victim.entity in w.actors && d.killer.entity in w.actors
  {
    && w.actors[d.killer.entity].kind.PlayerKind? && w.actors[d.victim.entity].kind.MobKind?
    && w.actors[d.victim.entity].exp.Some? && w.actors[d.victim.entity].exp.value > 0
  }

  lemma {:induction false} ClaimsLeave(w: World, ds: seq<HpDepleted>, e: Entity)
    requires e in w.actors && !Downed(ds, e)
    ensures e in RecordClaims(w, ds).actors && RecordClaims(w, ds).actors[e] == w.actors[e]
    decreases |ds|
  {
    if ds != [] {
      assert ds[0].victim.entity != e;
      assert forall i :: 0 <= i < |ds[1..]| ==> ds[1..][i] == ds[i + 1];
      ClaimsLeave(RecordClaim(w, ds[0]), ds[1..], e);
    }
  }

  /** Of the kills of a tick exactly those worth it are claimed, each by its killer. */
  lemma {:induction false} ClaimsExact(w: World, ds: seq<HpDepleted>, i: nat)
    requires i < |ds| && DistinctVictims(ds)
    requires ds[i].victim.entity in w.actors && ds[i].killer.entity in w.actors
    ensures var v, w' := ds[i].victim.entity, RecordClaims(w, ds);
            v in w'.actors && w'.actors[v].claim == if WorthClaim(w, ds[i]) then Some(ds[i].killer)
                                                    else w.actors[v].claim
    decreases |ds|
  {
    var w1, rest := RecordClaim(w, ds[0]), ds[1..];
    assert forall k :: 0 <= k < |rest| ==> rest[k] == ds[k + 1];
    if i == 0 {
      ClaimsLeave(w1, rest, ds[0].victim.entity);
    } else {
      assert ds[0].victim.entity != ds[i].victim.entity;
      ClaimsExact(w1, rest, i - 1);
    }
  }

  /** Rewards only settle claims, and one that is not dropped is refused exactly if applying it gives
      nothing. */
  lemma {:induction false} FatesExact(w: World, ds: seq<Ref>, refused: set<Entity>)
    ensures var log := Grants(w, ds, refused).log;
            && w.log <= log
            && forall j :: |w.log| <= j < |log| ==>
                 log[j].Settled? && (!log[j].fate.Dropped? ==> (log[j].fate.Refused? <==> log[j].entity in refused))
    decreases |ds|
  {
    if ds != [] {
      FatesExact(Grant(w, ds[0], refused), ds[1..], refused);
    }
  }

  // ----- leaving

  /** A leave takes away exactly the player it names, and nobody if the net id is another's. */
  lemma LeaveExact(w: World, r: Ref, e: Entity)
    ensures e in Next(w, Leave(r)).actors <==>
              && e in w.actors
              && !(e == r.entity && w.actors[e].netId == r.netId && w.actors[e].kind.PlayerKind?)
    ensures e in Next(w, Leave(r)).actors ==> Next(w, Leave(r)).actors[e] == w.actors[e]
  {
  }
}
