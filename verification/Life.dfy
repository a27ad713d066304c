/** The death lifecycle of actors: dying, finalised, restarted, rewarded, and runs of whole ticks. */
module Life {
  import opened Common

  const DYING_TO_DEAD_DELAY: nat := 3000
  const PLAYER_RESTART_HERE_DELAY: nat := 10000
  const PLAYER_RESTART_TOWN_DELAY: nat := 7000
  const PLAYER_FORCED_RESPAWN_DELAY: nat := 180000
  const MOB_CORPSE_MIN_DELAY: nat := 6000
  const MOB_CORPSE_JITTER_MS: nat := 4000

  type Entity = nat

  datatype Ref = Ref(entity: Entity, netId: nat)

  datatype Phase =
    | Alive
    | Dying(deadAt: nat)
    | Dead(hereAt: Option<nat>, townAt: Option<nat>, forcedAt: Option<nat>, cleanupAt: Option<nat>)

  datatype Kind = PlayerKind | MobKind

  /** `fights` tells whether a combat snapshot can be taken; `exp` is the prototype's reward. */
  datatype Actor = Actor(netId: nat, kind: Kind, phase: Phase, hp: int, fights: bool, exp: Option<int>,
                         claim: Option<Ref>)

  datatype HpDepleted = HpDepleted(victim: Ref, killer: Ref)

  /** How a dead player comes back. */
  datatype Comeback = Here | Town | Forced

  /** What becomes of a reward claim: experience given, none given, or the claimant gone. */
  datatype Fate = Paid | Refused | Dropped

  /** What has happened, in order, for the whole run. */
  datatype Event =
    | Depleted(entity: Entity, killer: Ref)
    | DyingStarted(entity: Entity, at: nat)
    | Claimed(entity: Entity, killer: Ref)
    | DeathFinalized(entity: Entity, at: nat)
    | Settled(entity: Entity, killer: Ref, fate: Fate)
    | Restarted(entity: Entity, at: nat, how: Comeback)
    | Removed(entity: Entity)

  /** The actors, the facts of the current tick, and the log. */
  datatype World = World(actors: map<Entity, Actor>, depleted: seq<HpDepleted>, dying: seq<Ref>,
                         finalized: seq<Ref>, cleanup: seq<Ref>, log: seq<Event>)

  predicate Matches(w: World, r: Ref) {
    r.entity in w.actors && w.actors[r.entity].netId == r.netId
  }

  function SetActor(w: World, e: Entity, a: Actor): World {
    w.(actors := w.actors[e := a])
  }

  function Logged(w: World, ev: Event): World {
    w.(log := w.log + [ev])
  }

  function ComebackDelay(how: Comeback): nat {
    match how
    case Here => PLAYER_RESTART_HERE_DELAY
    case Town => PLAYER_RESTART_TOWN_DELAY
    case Forced => PLAYER_FORCED_RESPAWN_DELAY
  }

  function DeathPhase(now: nat, a: Actor): Phase {
    match a.kind
    case PlayerKind =>
      Dead(Some(SaturatingAdd(now, PLAYER_RESTART_HERE_DELAY)), Some(SaturatingAdd(now, PLAYER_RESTART_TOWN_DELAY)),
           Some(SaturatingAdd(now, PLAYER_FORCED_RESPAWN_DELAY)), None)
    case MobKind =>
      var cleanupAt := SaturatingAdd(SaturatingAdd(now, MOB_CORPSE_MIN_DELAY), a.netId % MOB_CORPSE_JITTER_MS);
      Dead(None, None, None, Some(cleanupAt))
  }

  // ----- the systems of one tick

  function BeginDying(w: World, r: Ref, now: nat): World {
    if !Matches(w, r) || !w.actors[r.entity].phase.Alive? then w
    else
      Logged(SetActor(w, r.entity, w.actors[r.entity].(phase := Dying(SaturatingAdd(now, DYING_TO_DEAD_DELAY)))),
             DyingStarted(r.entity, now)).(dying := w.dying + [r])
  }

  function FinalizeDying(w: World, r: Ref, now: nat): World {
    if !Matches(w, r) || !w.actors[r.entity].phase.Dying? then w
    else
      Logged(SetActor(w, r.entity, w.actors[r.entity].(phase := DeathPhase(now, w.actors[r.entity]))),
             DeathFinalized(r.entity, now)).(finalized := w.finalized + [r])
  }

  datatype Attack = Attack(attacker: Entity, victim: Entity, damage: nat)

  function ProcessAttack(w: World, c: Attack, now: nat): World {
    if c.attacker !in w.actors || c.victim !in w.actors then w
    else
      var attacker, victim := w.actors[c.attacker], w.actors[c.victim];
      var ref := Ref(c.victim, victim.netId);
      if attacker.phase.Alive? && victim.phase.Dying? && victim.fights then FinalizeDying(w, ref, now)
      else if !attacker.phase.Alive? || !victim.phase.Alive? || !attacker.fights || !victim.fights then w
      else
        var hp := victim.hp - c.damage;
        var killer := Ref(c.attacker, attacker.netId);
        var hit := SetActor(w, c.victim, victim.(hp := hp));
        if victim.hp > 0 && hp <= 0 then
          Logged(hit, Depleted(c.victim, killer)).(depleted := w.depleted + [HpDepleted(ref, killer)])
        else hit
  }

  function RecordClaim(w: World, d: HpDepleted): World {
    if d.victim.entity !in w.actors || d.killer.entity !in w.actors
        || !w.actors[d.killer.entity].kind.PlayerKind? then w
    else
      var victim := w.actors[d.victim.entity];
      if !victim.kind.MobKind? || victim.exp.None? || victim.exp.value <= 0 then w
      else
        Logged(SetActor(w, d.victim.entity, victim.(claim := Some(d.killer))), Claimed(d.victim.entity, d.killer))
  }

  /** One entity of the lifecycle query. */
  function Age(w: World, e: Entity, now: nat): World {
    if e !in w.actors then w
    else
      var a := w.actors[e];
      match a.phase
      case Dying(deadAt) => if now >= deadAt then FinalizeDying(w, Ref(e, a.netId), now) else w
      case Dead(_, _, _, Some(cleanupAt)) =>
        if a.kind.MobKind? && now >= cleanupAt then w.(cleanup := w.cleanup + [Ref(e, a.netId)]) else w
      case _ => w
  }

  /** When a dead actor may, or must, come back this way. */
  function DueAt(phase: Phase, how: Comeback): Option<nat>
    requires phase.Dead?
  {
    match how
    case Here => phase.hereAt
    case Town => phase.townAt
    case Forced => phase.forcedAt
  }

  predicate ComebackDue(a: Actor, how: Comeback, now: nat) {
    a.phase.Dead? && DueAt(a.phase, how).Some? && DueAt(a.phase, how).value <= now
  }

  /** A requested or forced restart, with the hit points the stat rules give. */
  datatype Restart = Restart(entity: Entity, how: Comeback, hp: int)

  function ProcessRestart(w: World, r: Restart, now: nat): World {
    if r.entity !in w.actors || !w.actors[r.entity].kind.PlayerKind?
        || !ComebackDue(w.actors[r.entity], r.how, now) then w
    else
      Logged(SetActor(w, r.entity, w.actors[r.entity].(phase := Alive, hp := r.hp)), Restarted(r.entity, now, r.how))
  }

  /** `refused` names the mobs whose reward turns out to give nothing, or fails, when it is applied. */
  function Grant(w: World, death: Ref, refused: set<Entity>): World {
    if death.entity !in w.actors || w.actors[death.entity].claim.None? then w
    else
      var mob := w.actors[death.entity];
      var killer, cleared := mob.claim.value, SetActor(w, death.entity, mob.(claim := None));
      if !Matches(w, killer) || !w.actors[killer.entity].kind.PlayerKind? then
        Logged(cleared, Settled(death.entity, killer, Dropped))
      else if !mob.kind.MobKind? || mob.exp.None? then w
      else Logged(cleared, Settled(death.entity, killer, if death.entity in refused then Refused else Paid))
  }

  function Destroy(w: World, r: Ref): World {
    if r.entity !in w.actors then w else Logged(w.(actors := w.actors - {r.entity}), Removed(r.entity))
  }

  // ----- the loops over commands and facts

  function Attacks(w: World, cs: seq<Attack>, now: nat): World
    decreases |cs|
  {
    if cs == [] then w else Attacks(ProcessAttack(w, cs[0], now), cs[1..], now)
  }

  function LifeEvents(w: World, ds: seq<HpDepleted>, now: nat): World
    decreases |ds|
  {
    if ds == [] then w else LifeEvents(BeginDying(w, ds[0].victim, now), ds[1..], now)
  }

  function RecordClaims(w: World, ds: seq<HpDepleted>): World
    decreases |ds|
  {
    if ds == [] then w else RecordClaims(RecordClaim(w, ds[0]), ds[1..])
  }

  function Lifecycle(w: World, es: seq<Entity>, now: nat): World
    decreases |es|
  {
    if es == [] then w else Lifecycle(Age(w, es[0], now), es[1..], now)
  }

  function Restarts(w: World, rs: seq<Restart>, now: nat): World
    decreases |rs|
  {
    if rs == [] then w else Restarts(ProcessRestart(w, rs[0], now), rs[1..], now)
  }

  function Grants(w: World, ds: seq<Ref>, refused: set<Entity>): World
    decreases |ds|
  {
    if ds == [] then w else Grants(Grant(w, ds[0], refused), ds[1..], refused)
  }

  function Cleanups(w: World, rs: seq<Ref>): World
    decreases |rs|
  {
    if rs == [] then w else Cleanups(Destroy(w, rs[0]), rs[1..])
  }

  /** What one tick is given: its time, the attacks due, the order in which the queries visit, the
      restarts asked for, the hit points of a forced respawn, and the rewards that give nothing. */
  datatype Input = Input(now: nat, attacks: seq<Attack>, order: seq<Entity>, requests: seq<Restart>,
                         forcedHp: map<Entity, int>, refused: set<Entity>)

  /** Forced respawns follow the requested restarts, in query order. */
  function ForcedRestarts(order: seq<Entity>, hp: map<Entity, int>): seq<Restart> {
    seq(|order|, i requires 0 <= i < |order| => Restart(order[i], Forced, if order[i] in hp then hp[order[i]] else 0))
  }

  function Revived(w: World, input: Input): World {
    Restarts(Restarts(w, input.requests, input.now), ForcedRestarts(input.order, input.forcedHp), input.now)
  }

  /** The scheduled chain of systems; the facts are reset at its end. */
  function Tick(w: World, input: Input): World {
    var w1 := Attacks(w, input.attacks, input.now);
    var w2 := LifeEvents(w1, w1.depleted, input.now);
    var w3 := RecordClaims(w2, w2.depleted);
    var w4 := Lifecycle(w3, input.order, input.now);
    var w5 := Revived(w4, input);
    var w6 := Grants(w5, w5.finalized, input.refused);
    var w7 := Cleanups(w6, w6.cleanup);
    w7.(depleted := [], dying := [], finalized := [], cleanup := [])
  }

  /** Between ticks actors spawn, players leave, and hit points change for reasons of their own. */
  datatype RunStep =
    | DoTick(input: Input)
    | Spawn(entity: Entity, netId: nat, kind: Kind, hp: int, fights: bool, exp: Option<int>)
    | Leave(player: Ref)
    | SetHp(entity: Entity, hp: int)

  /** Entities carry a generation, so a spawn never reuses one that has a past. */
  ghost predicate CanSpawn(w: World, e: Entity) {
    e !in w.actors && forall k :: 0 <= k < |w.log| ==> w.log[k].entity != e
  }

  ghost predicate Enabled(w: World, step: RunStep) {
    step.Spawn? ==> CanSpawn(w, step.entity)
  }

  /** `handle_player_leave` ignores a message that names another net id. */
  function LeavePlayer(w: World, r: Ref): World {
    if Matches(w, r) && w.actors[r.entity].kind.PlayerKind? then Destroy(w, r) else w
  }

  function Next(w: World, step: RunStep): World {
    match step
    case DoTick(input) => Tick(w, input)
    case Leave(player) => LeavePlayer(w, player)
    case SetHp(e, hp) => if e in w.actors then SetActor(w, e, w.actors[e].(hp := hp)) else w
    case Spawn(e, netId, kind, hp, fights, exp) => SetActor(w, e, Actor(netId, kind, Alive, hp, fights, exp, None))
  }

  ghost predicate Runs(w: World, steps: seq<RunStep>, w': World)
    decreases |steps|
  {
    if steps == [] then w == w' else Enabled(w, steps[0]) && Runs(Next(w, steps[0]), steps[1..], w')
  }

  const EMPTY := World(map[], [], [], [], [], [])
}
