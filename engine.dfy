/** The fighters the combat engine works on. A fighter is an object whose
    fields the simulator updates in place; the rule engine only reads a
    snapshot of it. Positions are integral: fighters start on whole
    coordinates and only ever move by one unit. */
module Engine {
  import opened Actions

  /** Everything a fighter holds at one moment (its position flattened into
      `x` and `y`). */
  datatype FighterState = FighterState(
    health: int, maxHealth: int,
    x: int, y: int,
    blocking: bool, attacking: bool,
    attackCooldown: int, lastAction: ActionType)

  class Fighter {
    var health: int
    var maxHealth: int
    var x: int
    var y: int
    var blocking: bool
    var attacking: bool
    var attackCooldown: int
    var lastAction: ActionType

    constructor(s: FighterState)
      ensures State() == s
    {
      health, maxHealth := s.health, s.maxHealth;
      x, y := s.x, s.y;
      blocking, attacking := s.blocking, s.attacking;
      attackCooldown, lastAction := s.attackCooldown, s.lastAction;
    }

    /** The fighter's fields as a value. */
    function State(): FighterState
      reads this
    {
      FighterState(health, maxHealth, x, y, blocking, attacking, attackCooldown, lastAction)
    }
  }

  /** The two fighters of a match and the number of ticks simulated. */
  class MatchState {
    var fighterA: Fighter
    var fighterB: Fighter
    var tick: int

    constructor(a: Fighter, b: Fighter, tick: int)
      ensures fighterA == a && fighterB == b && this.tick == tick
    {
      fighterA, fighterB, this.tick := a, b, tick;
    }
  }
}
