/** The systems of a tick as loops over the world's resources. */
module LifeSystems {
  import opened Common
  import opened Life
  import opened LifeStories

  class MapWorld {
    var actors: map<Entity, Actor>
    var depleted: seq<HpDepleted>
    var dying: seq<Ref>
    var finalized: seq<Ref>
    var cleanup: seq<Ref>
    ghost var log: seq<Event>

    ghost function View(): World
      reads this
    {
      World(actors, depleted, dying, finalized, cleanup, log)
    }

    /** Between ticks: every story makes sense, and no fact and no claim on a death is left over. */
    ghost predicate Valid()
      reads this
    {
      Rested(View())
    }

    constructor ()
      ensures Valid() && View() == EMPTY
    {
      actors, depleted, dying, finalized, cleanup, log := map[], [], [], [], [], [];
      new;
      EmptyRested();
    }

    method BeginActorDying(r: Ref, now: nat) returns (began: bool)
      modifies this
      ensures View() == BeginDying(old(View()), r, now)
      ensures began <==> |dying| > old(|dying|)
    {
      if r.entity !in actors || actors[r.entity].netId != r.netId || !actors[r.entity].phase.Alive? {
        return false;
      }
      actors := actors[r.entity := actors[r.entity].(phase := Dying(SaturatingAdd(now, DYING_TO_DEAD_DELAY)))];
      dying := dying + [r];
      log := log + [DyingStarted(r.entity, now)];
      return true;
    }

    method FinalizeDyingActorDeath(r: Ref, now: nat) returns (done: bool)
      modifies this
      ensures View() == FinalizeDying(old(View()), r, now)
      ensures done <==> |finalized| > old(|finalized|)
    {
      if r.entity !in actors || actors[r.entity].netId != r.netId || !actors[r.entity].phase.Dying? {
        return false;
      }
      actors := actors[r.entity := actors[r.entity].(phase := DeathPhase(now, actors[r.entity]))];
      finalized := finalized + [r];
      log := log + [DeathFinalized(r.entity, now)];
      return true;
    }

    method ProcessAttackCommand(c: Attack, now: nat)
      modifies this
      ensures View() == ProcessAttack(old(View()), c, now)
    {
      if c.attacker !in actors || c.victim !in actors {
        return;
      }
      var attacker, victim := actors[c.attacker], actors[c.victim];
      var ref := Ref(c.victim, victim.netId);
      if attacker.phase.Alive? && victim.phase.Dying? && victim.fights {
        var done := FinalizeDyingActorDeath(ref, now);
        return;
      }
      if !attacker.phase.Alive? || !victim.phase.Alive? || !attacker.fights || !victim.fights {
        return;
      }
      actors := actors[c.victim := victim.(hp := victim.hp - c.damage)];
      if victim.hp > 0 && victim.hp - c.damage <= 0 {
        var killer := Ref(c.attacker, attacker.netId);
        depleted := depleted + [HpDepleted(ref, killer)];
        log := log + [Depleted(c.victim, killer)];
      }
    }

    method ProcessAttackCommands(cs: seq<Attack>, now: nat)
      modifies this
      ensures View() == Attacks(old(View()), cs, now)
    {
      var i := 0;
      while i < |cs|
        invariant 0 <= i <= |cs|
        invariant Attacks(View(), cs[i..], now) == Attacks(old(View()), cs, now)
      {
        assert cs[i..][1..] == cs[i + 1..];
        ProcessAttackCommand(cs[i], now);
        i := i + 1;
      }
    }

    method ProcessLifeEvents(now: nat)
      modifies this
      ensures View() == LifeEvents(old(View()), old(depleted), now)
    {
      var victims := depleted;
      var i := 0;
      while i < |victims|
        invariant 0 <= i <= |victims|
        invariant LifeEvents(View(), victims[i..], now) == LifeEvents(old(View()), victims, now)
      {
        assert victims[i..][1..] == victims[i + 1..];
        var began := BeginActorDying(victims[i].victim, now);
        i := i + 1;
      }
    }

    method RecordMobDeathRewardClaims()
      modifies this
      ensures View() == RecordClaims(old(View()), old(depleted))
    {
      var deaths := depleted;
      var i := 0;
      while i < |deaths|
        invariant 0 <= i <= |deaths|
        invariant RecordClaims(View(), deaths[i..]) == RecordClaims(old(View()), deaths)
      {
        assert deaths[i..][1..] == deaths[i + 1..];
        var d := deaths[i];
        if d.victim.entity in actors && d.killer.entity in actors && actors[d.killer.entity].kind.PlayerKind? {
          var victim := actors[d.victim.entity];
          if victim.kind.MobKind? && victim.exp.Some? && victim.exp.value > 0 {
            actors := actors[d.victim.entity := victim.(claim := Some(d.killer))];
            log := log + [Claimed(d.victim.entity, d.killer)];
          }
        }
        i := i + 1;
      }
    }

    method ProcessActorLifecycle(order: seq<Entity>, now: nat)
      modifies this
      ensures View() == Lifecycle(old(View()), order, now)
    {
      var i := 0;
      while i < |order|
        invariant 0 <= i <= |order|
        invariant Lifecycle(View(), order[i..], now) == Lifecycle(old(View()), order, now)
      {
        assert order[i..][1..] == order[i + 1..];
        var e := order[i];
        if e in actors {
          var ref := Ref(e, actors[e].netId);
          if actors[e].phase.Dying? && now >= actors[e].phase.deadAt {
            var done := FinalizeDyingActorDeath(ref, now);
          } else if actors[e].phase.Dead? && actors[e].phase.cleanupAt.Some? && actors[e].kind.MobKind?
                    && now >= actors[e].phase.cleanupAt.value {
            cleanup := cleanup + [ref];
          }
        }
        i := i + 1;
      }
    }

    method GrantMobDeathReward(death: Ref, refused: set<Entity>)
      modifies this`actors, this`log
      ensures View() == Grant(old(View()), death, refused)
    {
      var e := death.entity;
      if e !in actors || actors[e].claim.None? {
        return;
      }
      var mob := actors[e];
      var killer := mob.claim.value;
      if killer.entity !in actors || actors[killer.entity].netId != killer.netId
          || !actors[killer.entity].kind.PlayerKind? {
        actors := actors[e := mob.(claim := None)];
        log := log + [Settled(e, killer, Dropped)];
        return;
      }
      if !mob.kind.MobKind? || mob.exp.None? {
        return;
      }
      var fate := if e in refused then Refused else Paid;
      actors := actors[e := mob.(claim := None)];
      log := log + [Settled(e, killer, fate)];
    }

    /** `refused` stands for what applying a reward answers. */
    method GrantMobDeathRewards(refused: set<Entity>)
      modifies this
      ensures View() == Grants(old(View()), old(finalized), refused)
    {
      var deaths := finalized;
      var i := 0;
      while i < |deaths|
        invariant 0 <= i <= |deaths|
        invariant Grants(View(), deaths[i..], refused) == Grants(old(View()), deaths, refused)
      {
        assert deaths[i..][1..] == deaths[i + 1..];
        GrantMobDeathReward(deaths[i], refused);
        i := i + 1;
      }
    }

    method ProcessRequestedRestart(r: Restart, now: nat)
      modifies this`actors, this`log
      ensures View() == ProcessRestart(old(View()), r, now)
    {
      if r.entity !in actors || !actors[r.entity].kind.PlayerKind? || !actors[r.entity].phase.Dead? {
        return;
      }
      var dueAt := DueAt(actors[r.entity].phase, r.how);
      if dueAt.Some? && dueAt.value <= now {
        actors := actors[r.entity := actors[r.entity].(phase := Alive, hp := r.hp)];
        log := log + [Restarted(r.entity, now, r.how)];
      }
    }

    method ProcessRestarts(rs: seq<Restart>, now: nat)
      modifies this`actors, this`log
      ensures View() == Restarts(old(View()), rs, now)
    {
      var i := 0;
      while i < |rs|
        invariant 0 <= i <= |rs|
        invariant Restarts(View(), rs[i..], now) == Restarts(old(View()), rs, now)
      {
        assert rs[i..][1..] == rs[i + 1..];
        ProcessRequestedRestart(rs[i], now);
        i := i + 1;
      }
    }

    /** The restarts asked for, then the players whose forced respawn is due. */
    method ProcessPlayerRestarts(input: Input)
      modifies this`actors, this`log
      ensures View() == Revived(old(View()), input)
    {
      ProcessRestarts(input.requests, input.now);
      ProcessRestarts(ForcedRestarts(input.order, input.forcedHp), input.now);
    }

    method Despawn(e: Entity)
      requires e in actors
      modifies this`actors, this`log
      ensures forall r: Ref :: r.entity == e ==> View() == Destroy(old(View()), r)
    {
      actors := actors - {e};
      log := log + [Removed(e)];
    }

    method ProcessCleanupEvents()
      modifies this
      ensures View() == Cleanups(old(View()), old(cleanup))
    {
      var corpses := cleanup;
      var i := 0;
      while i < |corpses|
        invariant 0 <= i <= |corpses|
        invariant Cleanups(View(), corpses[i..]) == Cleanups(old(View()), corpses)
      {
        assert corpses[i..][1..] == corpses[i + 1..];
        if corpses[i].entity in actors {
          Despawn(corpses[i].entity);
        }
        i := i + 1;
      }
    }

    /** The whole chain of one tick, from a world between ticks to a world between ticks. */
    method RunTick(input: Input)
      requires Valid()
      modifies this
      ensures Valid() && View() == Tick(old(View()), input)
    {
      TickOk(View(), input);
      ProcessAttackCommands(input.attacks, input.now);
      ProcessLifeEvents(input.now);
      RecordMobDeathRewardClaims();
      ProcessActorLifecycle(input.order, input.now);
      ProcessPlayerRestarts(input);
      GrantMobDeathRewards(input.refused);
      ProcessCleanupEvents();
      depleted, dying, finalized, cleanup := [], [], [], [];
    }

    method HandlePlayerLeave(r: Ref)
      requires Valid()
      modifies this
      ensures Valid() && View() == LeavePlayer(old(View()), r)
    {
      BetweenTicksOk(View(), Leave(r));
      if r.entity in actors && actors[r.entity].netId == r.netId && actors[r.entity].kind.PlayerKind? {
        Despawn(r.entity);
      }
    }
  }
}
