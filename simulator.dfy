/** One combat tick: both fighters' actions are resolved against the
    distance between them before the tick, damage is applied, then each
    fighter moves (A first, B against A's new position), cooldowns run down
    and the tick counter advances. */
module Simulator {
  import opened Actions
  import opened Engine
  import opened RuleEngine

  const BaseDamage := 10
  /** Damage against a blocking fighter: `BASE_DAMAGE * BLOCK_DAMAGE_REDUCTION`
      with the reduction 0.5, which is exact. */
  const BlockedDamage := 5
  /** `ATTACK_RANGE` is 2; the model compares squared distances. */
  const AttackRangeSquared := 4
  const AttackCooldownTicks := 3

  /** -1, 0 or 1 as `n` is negative, zero or positive. */
  function Sign(n: int): (s: int)
    ensures -1 <= s <= 1 && (s == 0 <==> n == 0) && (s > 0 <==> n > 0)
  {
    if n > 0 then 1 else if n < 0 then -1 else 0
  }

  /** `applyMovement`: APPROACH steps one unit toward the opponent on each
      axis where they differ, RETREAT one unit away, anything else stays. */
  function Moved(f: FighterState, o: FighterState, action: ActionType): FighterState {
    if action == Approach then f.(x := f.x + Sign(o.x - f.x), y := f.y + Sign(o.y - f.y))
    else if action == Retreat then f.(x := f.x - Sign(o.x - f.x), y := f.y - Sign(o.y - f.y))
    else f
  }

  /** An attack lands when the action is ATTACK, the squared distance
      before the tick is within range and the attacker's cooldown is 0. */
  predicate Lands(action: ActionType, attacker: FighterState, d2: int) {
    action == Attack && d2 <= AttackRangeSquared && attacker.attackCooldown == 0
  }

  /** The damage of a landed attack on a defender taking `defenderAction`. */
  function Damage(defenderAction: ActionType): int {
    if defenderAction == Block then BlockedDamage else BaseDamage
  }

  function CooledDown(c: int): int {
    if c > 0 then c - 1 else c
  }

  /** A fighter after the combat part of the tick: it attacks when its own
      attack lands, blocks when it chose BLOCK, and loses the damage of the
      opponent's attack when that lands. */
  function Fought(f: FighterState, action: ActionType, lands: bool, hit: bool): FighterState {
    f.(health := f.health - (if hit then Damage(action) else 0),
       attacking := lands,
       blocking := !lands && action == Block,
       attackCooldown := if lands then AttackCooldownTicks else f.attackCooldown)
  }

  /** The end of the tick for one fighter: cooldown down by one, action
      recorded. */
  function Finished(f: FighterState, action: ActionType): FighterState {
    f.(attackCooldown := CooledDown(f.attackCooldown), lastAction := action)
  }

  /** Both fighters after one tick. */
  function Tick(a: FighterState, b: FighterState, actionA: ActionType, actionB: ActionType): (FighterState, FighterState) {
    var d2 := SquaredDistance(a, b);
    var landsA, landsB := Lands(actionA, a, d2), Lands(actionB, b, d2);
    var a1 := Fought(a, actionA, landsA, landsB);
    var b1 := Fought(b, actionB, landsB, landsA);
    var a2 := Moved(a1, b1, actionA);
    var b2 := Moved(b1, a2, actionB);
    (Finished(a2, actionA), Finished(b2, actionB))
  }

  /** `applyMovement`, in place. */
  method ApplyMovement(fighter: Fighter, opponent: Fighter, action: ActionType)
    requires fighter != opponent
    modifies fighter
    ensures fighter.State() == Moved(old(fighter.State()), opponent.State(), action)
  {
    if action == Approach {
      if fighter.x < opponent.x {
        fighter.x := fighter.x + 1;
      } else if fighter.x > opponent.x {
        fighter.x := fighter.x - 1;
      }
      if fighter.y < opponent.y {
        fighter.y := fighter.y + 1;
      } else if fighter.y > opponent.y {
        fighter.y := fighter.y - 1;
      }
    } else if action == Retreat {
      if fighter.x < opponent.x {
        fighter.x := fighter.x - 1;
      } else if fighter.x > opponent.x {
        fighter.x := fighter.x + 1;
      }
      if fighter.y < opponent.y {
        fighter.y := fighter.y - 1;
      } else if fighter.y > opponent.y {
        fighter.y := fighter.y + 1;
      }
    }
  }

  /** The part of `simulateTick` that processes one fighter's action: the
      flags are cleared, a landing attack sets `attacking` and the cooldown
      and deals its damage, a BLOCK sets `blocking`. */
  method ResolveAction(f: Fighter, action: ActionType, opponentAction: ActionType, d2: int) returns (damage: int)
    modifies f
    ensures var s := old(f.State());
            var lands := Lands(action, s, d2);
            && f.State() == s.(attacking := lands, blocking := !lands && action == Block,
                               attackCooldown := if lands then AttackCooldownTicks else s.attackCooldown)
            && damage == (if lands then Damage(opponentAction) else 0)
  {
    f.attacking := false;
    f.blocking := false;
    damage := 0;
    if action == Attack && d2 <= AttackRangeSquared && f.attackCooldown == 0 {
      damage := BaseDamage;
      if opponentAction == Block {
        damage := BlockedDamage;
      }
      f.attacking := true;
      f.attackCooldown := AttackCooldownTicks;
    } else if action == Block {
      f.blocking := true;
    }
  }

  /** The end of `simulateTick` for one fighter: the cooldown runs down by
      one when positive, and the action is recorded. */
  method EndOfTick(f: Fighter, action: ActionType)
    modifies f
    ensures f.State() == Finished(old(f.State()), action)
  {
    if f.attackCooldown > 0 {
      f.attackCooldown := f.attackCooldown - 1;
    }
    f.lastAction := action;
  }

  /** `simulateTick`: updates both fighters and the tick counter in place
      and returns the same state object. */
  method SimulateTick(state: MatchState, actionA: ActionType, actionB: ActionType) returns (r: MatchState)
    requires state.fighterA != state.fighterB
    modifies state, state.fighterA, state.fighterB
    ensures r == state && state.fighterA == old(state.fighterA) && state.fighterB == old(state.fighterB)
    ensures (state.fighterA.State(), state.fighterB.State())
            == Tick(old(state.fighterA.State()), old(state.fighterB.State()), actionA, actionB)
    ensures state.tick == old(state.tick) + 1
  {
    var fighterA, fighterB := state.fighterA, state.fighterB;
    ghost var a, b := fighterA.State(), fighterB.State();
    ExchangeBlows(fighterA, fighterB, actionA, actionB);
    ghost var d2 := SquaredDistance(a, b);
    ghost var a1 := Fought(a, actionA, Lands(actionA, a, d2), Lands(actionB, b, d2));
    ghost var b1 := Fought(b, actionB, Lands(actionB, b, d2), Lands(actionA, a, d2));

    ApplyMovement(fighterA, fighterB, actionA);
    ghost var a2 := Moved(a1, b1, actionA);
    ApplyMovement(fighterB, fighterA, actionB);
    ghost var b2 := Moved(b1, a2, actionB);
    assert fighterB.State() == b2 && fighterA.State() == a2;

    EndOfTick(fighterA, actionA);
    EndOfTick(fighterB, actionB);
    assert Tick(a, b, actionA, actionB) == (Finished(a2, actionA), Finished(b2, actionB));

    state.tick := state.tick + 1;
    return state;
  }

  /** The attack and damage part of a tick, both judged on the distance
      before it. */
  method ExchangeBlows(fighterA: Fighter, fighterB: Fighter, actionA: ActionType, actionB: ActionType)
    requires fighterA != fighterB
    modifies fighterA, fighterB
    ensures var a, b := old(fighterA.State()), old(fighterB.State());
            var d2 := SquaredDistance(a, b);
            && fighterA.State() == Fought(a, actionA, Lands(actionA, a, d2), Lands(actionB, b, d2))
            && fighterB.State() == Fought(b, actionB, Lands(actionB, b, d2), Lands(actionA, a, d2))
  {
    var d2 := SquaredDistance(fighterA.State(), fighterB.State());
    var damageToB := ResolveAction(fighterA, actionA, actionB, d2);
    var damageToA := ResolveAction(fighterB, actionB, actionA, d2);
    fighterA.health := fighterA.health - damageToA;
    fighterB.health := fighterB.health - damageToB;
  }

  // ---------------------------------------------------------------------
  // What one tick does

  /** An attack lands exactly when it is an ATTACK within range by a fighter
      whose cooldown is 0, both judged on the distance before the tick, so
      two such attacks in the same tick both land. */
  lemma AttackLanding(a: FighterState, b: FighterState, actionA: ActionType, actionB: ActionType)
    ensures var (a', b') := Tick(a, b, actionA, actionB);
            && (a'.attacking <==> actionA == Attack && SquaredDistance(a, b) <= 4 && a.attackCooldown == 0)
            && (b'.attacking <==> actionB == Attack && SquaredDistance(a, b) <= 4 && b.attackCooldown == 0)
  {
  }

  /** A landed attack takes 10 health, or 5 when the defender blocks, with
      no floor at 0; an attack that does not land takes nothing. */
  lemma DamageTaken(a: FighterState, b: FighterState, actionA: ActionType, actionB: ActionType)
    ensures var (a', b') := Tick(a, b, actionA, actionB);
            var d2 := SquaredDistance(a, b);
            && b'.health == b.health - (if Lands(actionA, a, d2) then (if actionB == Block then 5 else 10) else 0)
            && a'.health == a.health - (if Lands(actionB, b, d2) then (if actionA == Block then 5 else 10) else 0)
  {
  }

  /** Health never rises in a tick. */
  lemma HealthNeverRises(a: FighterState, b: FighterState, actionA: ActionType, actionB: ActionType)
    ensures var (a', b') := Tick(a, b, actionA, actionB);
            a'.health <= a.health && b'.health <= b.health
  {
  }

  /** Two fighters side by side attacking each other from full cooldown
      both land; a fighter at 3 health drops to -7. */
  lemma SimultaneousHitsGoBelowZero()
    ensures var a := FighterState(3, 100, 0, 0, false, false, 0, Idle);
            var b := FighterState(50, 100, 1, 1, false, false, 0, Idle);
            var (a', b') := Tick(a, b, Attack, Attack);
            a'.health == -7 && b'.health == 40 && a'.attacking && b'.attacking
  {
  }

  /** A landed attack leaves its cooldown at 2 after the tick; any other
      positive cooldown drops by one, and one at 0 stays there. */
  lemma CooldownAfterTick(a: FighterState, b: FighterState, actionA: ActionType, actionB: ActionType)
    ensures var (a', b') := Tick(a, b, actionA, actionB);
            var d2 := SquaredDistance(a, b);
            && a'.attackCooldown == (if Lands(actionA, a, d2) then 2 else CooledDown(a.attackCooldown))
            && b'.attackCooldown == (if Lands(actionB, b, d2) then 2 else CooledDown(b.attackCooldown))
            && (a.attackCooldown >= 0 ==> 0 <= a'.attackCooldown <= 2 || a'.attackCooldown == a.attackCooldown - 1)
  {
  }

  /** After a tick, a fighter blocks exactly when it chose BLOCK and attacks
      exactly when its attack landed; it records its action, and its maximum
      health does not change. */
  lemma FlagsAndRecord(a: FighterState, b: FighterState, actionA: ActionType, actionB: ActionType)
    ensures var (a', b') := Tick(a, b, actionA, actionB);
            && (a'.blocking <==> actionA == Block) && (b'.blocking <==> actionB == Block)
            && (a'.attacking ==> actionA == Attack) && (b'.attacking ==> actionB == Attack)
            && a'.lastAction == actionA && b'.lastAction == actionB
            && a'.maxHealth == a.maxHealth && b'.maxHealth == b.maxHealth
  {
  }

  /** An attack that does not land (out of range or on cooldown) hurts no
      one and raises no flag. */
  lemma MissedAttack(a: FighterState, b: FighterState, actionB: ActionType)
    requires SquaredDistance(a, b) > 4 || a.attackCooldown != 0
    ensures var (a', b') := Tick(a, b, Attack, actionB);
            b'.health == b.health && !a'.attacking && !a'.blocking
  {
  }

  /** Movement of one fighter against a fixed point: APPROACH closes the
      gap by exactly one on every axis where there is one, RETREAT widens it
      by exactly one there, and no action moves along an axis with no gap. */
  lemma MoveAgainst(f: FighterState, o: FighterState, action: ActionType)
    ensures var m := Moved(f, o, action);
            && (action == Approach ==>
                  Abs(o.x - m.x) == Abs(o.x - f.x) - Sign(Abs(o.x - f.x))
                  && Abs(o.y - m.y) == Abs(o.y - f.y) - Sign(Abs(o.y - f.y)))
            && (action == Retreat ==>
                  Abs(o.x - m.x) == Abs(o.x - f.x) + Sign(Abs(o.x - f.x))
                  && Abs(o.y - m.y) == Abs(o.y - f.y) + Sign(Abs(o.y - f.y)))
            && (action != Approach && action != Retreat ==> m.x == f.x && m.y == f.y)
            && (f.x == o.x ==> m.x == f.x) && (f.y == o.y ==> m.y == f.y)
  {
  }

  function Abs(n: int): nat {
    if n < 0 then -n else n
  }

  /** Movement is sequential: A moves against B's position, and B then moves
      against A's new position. */
  lemma MovementOrder(a: FighterState, b: FighterState, actionA: ActionType, actionB: ActionType)
    ensures var (a', b') := Tick(a, b, actionA, actionB);
            && a'.x == Moved(a, b, actionA).x && a'.y == Moved(a, b, actionA).y
            && b'.x == Moved(b, a', actionB).x && b'.y == Moved(b, a', actionB).y
  {
  }

  /** Side by side on one axis and both approaching, A steps onto B's
      square and B, now level with A, stays. */
  lemma ApproachOntoSameSquare()
    ensures var a := FighterState(100, 100, 0, 0, false, false, 0, Idle);
            var b := FighterState(100, 100, 1, 0, false, false, 0, Idle);
            var (a', b') := Tick(a, b, Approach, Approach);
            a'.x == 1 && a'.y == 0 && b'.x == 1 && b'.y == 0
  {
  }
}
