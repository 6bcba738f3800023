/** The CASL abstract syntax: a strategy is a named list of rules, each rule a
    group of comparisons joined by AND/OR and the action to take when the group
    holds, plus a DEFAULT action.

    Field names, comparison operators, logical operators and action names are
    kept as the text they were written with, because the parser accepts any
    word there and only the validator restricts them; the executor gives every
    text outside the known ones a fixed meaning. */
module CaslTypes {

  /** A JavaScript number: a finite value (modelled exactly, without rounding),
      NaN, or one of the two infinities. */
  datatype Num = Finite(r: real) | NaN | PosInfinity | NegInfinity

  /** A condition's value. The parser only produces numbers; strategies built
      by other code may hold anything, which the validator reports. A value of
      another JavaScript type compares as the number it converts to. */
  datatype Value = Number(n: Num) | NonNumber(text: string, coerced: Num)

  datatype Condition = Condition(field: string, op: string, value: Value)

  /** `operators[i]` joins `conditions[i]` and `conditions[i + 1]`. */
  datatype ConditionGroup = ConditionGroup(conditions: seq<Condition>, operators: seq<string>)

  datatype Rule = Rule(name: string, group: ConditionGroup, action: string)

  datatype Strategy = Strategy(name: string, rules: seq<Rule>, defaultAction: string)

  /** The game state a strategy is run against. */
  datatype ExecutionContext = ExecutionContext(
    enemyHealth: real, enemyAttackCooldown: real,
    selfHealth: real, selfAttackCooldown: real,
    distance: real)

  const EnemyHealth := "enemy.health"
  const EnemyAttackCooldown := "enemy.attackCooldown"
  const SelfHealth := "self.health"
  const SelfAttackCooldown := "self.attackCooldown"
  const DistanceField := "distance"

  predicate IsField(f: string) {
    f == EnemyHealth || f == EnemyAttackCooldown || f == SelfHealth
    || f == SelfAttackCooldown || f == DistanceField
  }

  predicate IsCompareOp(op: string) {
    op == "<" || op == ">" || op == "<=" || op == ">=" || op == "==" || op == "!="
  }

  predicate IsLogicalOp(op: string) { op == "AND" || op == "OR" }

  /** The number a value compares as in `<`, `>`, `<=` and `>=`. */
  function Numeric(v: Value): (n: Num)
    ensures v.Number? ==> n == v.n
  {
    match v
    case Number(n) => n
    case NonNumber(_, c) => c
  }

  /** JavaScript `x < v` for a finite `x`. */
  predicate Below(x: real, v: Num) {
    match v
    case Finite(r) => x < r
    case NaN => false
    case PosInfinity => true
    case NegInfinity => false
  }

  /** JavaScript `x > v` for a finite `x`. */
  predicate Above(x: real, v: Num) {
    match v
    case Finite(r) => x > r
    case NaN => false
    case PosInfinity => false
    case NegInfinity => true
  }

  /** JavaScript `v < bound` for a finite bound. */
  predicate NumBelow(v: Num, bound: real) { Above(bound, v) }

  /** JavaScript `v > bound` for a finite bound. */
  predicate NumAbove(v: Num, bound: real) { Below(bound, v) }
}
