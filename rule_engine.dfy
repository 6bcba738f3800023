/** The single-condition rule engine: each rule pairs one comparison on the
    fighter, its opponent or the distance between them with an action, and
    the first rule whose comparison holds gives the fighter's action.

    The engine computes the Euclidean distance with a square root. The model
    keeps the squared distance, an integer, and compares it with the square
    of the threshold; `DistanceComparisons` shows that this decides exactly
    what comparing the distance itself decides. */
module RuleEngine {
  import opened Actions
  import opened Engine

  datatype ConditionType =
    | SelfHealthLessThan | SelfHealthGreaterThan
    | EnemyHealthLessThan | EnemyHealthGreaterThan
    | DistanceLessThan | DistanceGreaterThan
    | SelfAttackCooldownEqual | SelfAttackCooldownGreaterThan
    | EnemyAttackCooldownEqual | EnemyAttackCooldownGreaterThan
    | UnknownCondition(name: string)

  datatype RuleCondition = RuleCondition(kind: ConditionType, value: real)

  datatype EngineRule = EngineRule(condition: RuleCondition, action: ActionType)

  /** `dx * dx + dy * dy`, the square of `calculateDistance`. */
  function SquaredDistance(f: FighterState, o: FighterState): (d2: int)
    ensures d2 >= 0
    ensures f.x == o.x && f.y == o.y <==> d2 == 0
  {
    var dx, dy := f.x - o.x, f.y - o.y;
    assert dx * dx >= 0 && dy * dy >= 0;
    assert dx != 0 ==> dx * dx > 0;
    assert dy != 0 ==> dy * dy > 0;
    dx * dx + dy * dy
  }

  /** The distance whose square is `d2` is below `v`. */
  predicate DistanceBelow(d2: int, v: real) {
    v > 0.0 && (d2 as real) < v * v
  }

  /** The distance whose square is `d2` is above `v`. */
  predicate DistanceAbove(d2: int, v: real) {
    v < 0.0 || (d2 as real) > v * v
  }

  /** One condition, for the fighter `f` facing `o`: SELF reads `f`, ENEMY
      reads `o`, the comparisons are strict, the cooldown tests are exact
      equality, and an unknown type never holds. */
  predicate ConditionHolds(c: RuleCondition, f: FighterState, o: FighterState) {
    match c.kind
    case SelfHealthLessThan => (f.health as real) < c.value
    case SelfHealthGreaterThan => (f.health as real) > c.value
    case EnemyHealthLessThan => (o.health as real) < c.value
    case EnemyHealthGreaterThan => (o.health as real) > c.value
    case DistanceLessThan => DistanceBelow(SquaredDistance(f, o), c.value)
    case DistanceGreaterThan => DistanceAbove(SquaredDistance(f, o), c.value)
    case SelfAttackCooldownEqual => (f.attackCooldown as real) == c.value
    case SelfAttackCooldownGreaterThan => (f.attackCooldown as real) > c.value
    case EnemyAttackCooldownEqual => (o.attackCooldown as real) == c.value
    case EnemyAttackCooldownGreaterThan => (o.attackCooldown as real) > c.value
    case UnknownCondition(_) => false
  }

  /** `evaluateRules`: the action of the first rule that holds, IDLE when
      none does. */
  function EvaluateRules(rules: seq<EngineRule>, f: FighterState, o: FighterState): (a: ActionType)
    ensures a == Idle || exists i | 0 <= i < |rules| :: rules[i].action == a
    decreases |rules|
  {
    if rules == [] then Idle
    else if ConditionHolds(rules[0].condition, f, o) then rules[0].action
    else
      var a := EvaluateRules(rules[1..], f, o);
      assert a != Idle ==> exists i | 1 <= i < |rules| :: rules[i].action == a by {
        if a != Idle {
          var i :| 0 <= i < |rules[1..]| && rules[1..][i].action == a;
          assert rules[i + 1].action == a;
        }
      }
      a
  }

  /** Comparing squares decides the same as comparing the distance `d`
      itself: below, above, and within the attack range of 2. */
  lemma DistanceComparisons(d: real, d2: int, v: real)
    requires d >= 0.0 && d * d == d2 as real
    ensures d < v <==> DistanceBelow(d2, v)
    ensures d > v <==> DistanceAbove(d2, v)
    ensures d <= 2.0 <==> d2 <= 4
  {
    if 0.0 <= v {
      SquareMonotone(d, v);
      SquareMonotone(v, d);
    }
    SquareMonotone(2.0, d);
  }

  /** On non-negative numbers squaring keeps the order. */
  lemma SquareMonotone(a: real, b: real)
    requires a >= 0.0 && b >= 0.0
    ensures a < b <==> a * a < b * b
  {
    if a < b {
      assert a * b - a * a == a * (b - a) >= 0.0;
      assert b * b - a * b == b * (b - a) > 0.0;
    } else {
      assert b * a - b * b == b * (a - b) >= 0.0;
      assert a * a - b * a == a * (a - b) >= 0.0;
    }
  }

  /** The distance is the same whichever fighter is asking. */
  lemma DistanceSymmetric(f: FighterState, o: FighterState)
    ensures SquaredDistance(f, o) == SquaredDistance(o, f)
  {
    assert (f.x - o.x) * (f.x - o.x) == (o.x - f.x) * (o.x - f.x);
    assert (f.y - o.y) * (f.y - o.y) == (o.y - f.y) * (o.y - f.y);
  }

  /** SELF conditions for one fighter are ENEMY conditions for the other. */
  lemma SelfIsEnemyOfOpponent(f: FighterState, o: FighterState, v: real)
    ensures ConditionHolds(RuleCondition(SelfHealthLessThan, v), f, o)
            == ConditionHolds(RuleCondition(EnemyHealthLessThan, v), o, f)
    ensures ConditionHolds(RuleCondition(SelfHealthGreaterThan, v), f, o)
            == ConditionHolds(RuleCondition(EnemyHealthGreaterThan, v), o, f)
    ensures ConditionHolds(RuleCondition(SelfAttackCooldownEqual, v), f, o)
            == ConditionHolds(RuleCondition(EnemyAttackCooldownEqual, v), o, f)
    ensures ConditionHolds(RuleCondition(SelfAttackCooldownGreaterThan, v), f, o)
            == ConditionHolds(RuleCondition(EnemyAttackCooldownGreaterThan, v), o, f)
    ensures ConditionHolds(RuleCondition(DistanceLessThan, v), f, o)
            == ConditionHolds(RuleCondition(DistanceLessThan, v), o, f)
    ensures ConditionHolds(RuleCondition(DistanceGreaterThan, v), f, o)
            == ConditionHolds(RuleCondition(DistanceGreaterThan, v), o, f)
  {
    DistanceSymmetric(f, o);
  }

  /** At the threshold itself the strict comparisons fail and the equality
      tests succeed. */
  lemma StrictAtThreshold(f: FighterState, o: FighterState)
    ensures !ConditionHolds(RuleCondition(SelfHealthLessThan, f.health as real), f, o)
    ensures !ConditionHolds(RuleCondition(SelfHealthGreaterThan, f.health as real), f, o)
    ensures !ConditionHolds(RuleCondition(EnemyHealthLessThan, o.health as real), f, o)
    ensures !ConditionHolds(RuleCondition(EnemyHealthGreaterThan, o.health as real), f, o)
    ensures ConditionHolds(RuleCondition(SelfAttackCooldownEqual, f.attackCooldown as real), f, o)
    ensures ConditionHolds(RuleCondition(EnemyAttackCooldownEqual, o.attackCooldown as real), f, o)
  {
  }

  /** The first rule that holds decides, whatever the later rules say. */
  lemma {:induction false} FirstMatchWins(rules: seq<EngineRule>, f: FighterState, o: FighterState, i: nat)
    requires i < |rules| && ConditionHolds(rules[i].condition, f, o)
    requires forall j | 0 <= j < i :: !ConditionHolds(rules[j].condition, f, o)
    ensures EvaluateRules(rules, f, o) == rules[i].action
    decreases i
  {
    if i > 0 {
      assert !ConditionHolds(rules[0].condition, f, o);
      assert rules[1..][i - 1] == rules[i];
      FirstMatchWins(rules[1..], f, o, i - 1);
    }
  }

  /** With no rule holding, in particular with no rules, the action is IDLE. */
  lemma {:induction false} NoMatchIsIdle(rules: seq<EngineRule>, f: FighterState, o: FighterState)
    requires forall j | 0 <= j < |rules| :: !ConditionHolds(rules[j].condition, f, o)
    ensures EvaluateRules(rules, f, o) == Idle
    decreases |rules|
  {
    if rules != [] {
      assert !ConditionHolds(rules[0].condition, f, o);
      NoMatchIsIdle(rules[1..], f, o);
    }
  }
}
