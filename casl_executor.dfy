/** Running a CASL strategy against a game state: rules are tried top to
    bottom, the first whose condition group holds gives the action, and the
    DEFAULT action is used when none does. */
module CaslExecutor {
  import opened Wrappers
  import opened CaslTypes

  /** The number a field name reads from the game state; an unknown field
      reads as 0. */
  function FieldValue(field: string, ctx: ExecutionContext): real {
    if field == EnemyHealth then ctx.enemyHealth
    else if field == EnemyAttackCooldown then ctx.enemyAttackCooldown
    else if field == SelfHealth then ctx.selfHealth
    else if field == SelfAttackCooldown then ctx.selfAttackCooldown
    else if field == DistanceField then ctx.distance
    else 0.0
  }

  /** JavaScript `x <= v` for a finite `x`: false against NaN. */
  predicate AtMost(x: real, v: Num) { !v.NaN? && !Above(x, v) }

  /** JavaScript `x >= v` for a finite `x`: false against NaN. */
  predicate AtLeast(x: real, v: Num) { !v.NaN? && !Below(x, v) }

  /** One comparison, with `==` and `!=` meaning strict (in)equality; an
      unknown operator never holds. */
  predicate Compare(actual: real, op: string, expected: Value) {
    if op == "<" then Below(actual, Numeric(expected))
    else if op == ">" then Above(actual, Numeric(expected))
    else if op == "<=" then AtMost(actual, Numeric(expected))
    else if op == ">=" then AtLeast(actual, Numeric(expected))
    else if op == "==" then expected == Number(Finite(actual))
    else if op == "!=" then expected != Number(Finite(actual))
    else false
  }

  predicate Holds(c: Condition, ctx: ExecutionContext) {
    Compare(FieldValue(c.field, ctx), c.op, c.value)
  }

  /** How the running result of a group absorbs the next condition: an
      operator other than AND and OR leaves it as it is. */
  function Combine(op: string, acc: bool, next: bool): bool {
    if op == "AND" then acc && next
    else if op == "OR" then acc || next
    else acc
  }

  /** The running result after the first `k` operators, applied strictly
      left to right. */
  function Fold(g: ConditionGroup, ctx: ExecutionContext, k: nat): bool
    requires k < |g.conditions| && k <= |g.operators|
  {
    if k == 0 then Holds(g.conditions[0], ctx)
    else Combine(g.operators[k - 1], Fold(g, ctx, k - 1), Holds(g.conditions[k], ctx))
  }

  /** What evaluating a group yields: false for no conditions, `None` when
      there are as many operators as conditions or more (the evaluator then
      reads a condition past the end and throws), else the left-to-right
      fold over every operator. */
  function GroupOutcome(g: ConditionGroup, ctx: ExecutionContext): Option<bool> {
    if |g.conditions| == 0 then Some(false)
    else if |g.operators| >= |g.conditions| then None
    else Some(Fold(g, ctx, |g.operators|))
  }

  /** A group is well formed when it has one operator fewer than conditions. */
  predicate WellFormed(g: ConditionGroup) {
    |g.conditions| >= 1 && |g.operators| == |g.conditions| - 1
  }

  /** Evaluates a condition group, `None` standing for the thrown error. */
  method EvaluateConditionGroup(g: ConditionGroup, ctx: ExecutionContext) returns (r: Option<bool>)
    ensures r == GroupOutcome(g, ctx)
  {
    if |g.conditions| == 0 {
      return Some(false);
    }
    var result := Holds(g.conditions[0], ctx);
    var i := 0;
    while i < |g.operators|
      invariant 0 <= i <= |g.operators| && i < |g.conditions|
      invariant result == Fold(g, ctx, i)
    {
      if i + 1 >= |g.conditions| {
        return None;
      }
      var next := Holds(g.conditions[i + 1], ctx);
      if g.operators[i] == "AND" {
        result := result && next;
      } else if g.operators[i] == "OR" {
        result := result || next;
      }
      i := i + 1;
    }
    return Some(result);
  }

  /** Runs a strategy: the action of the first rule whose group holds, the
      default action when no group holds, `None` when a group reached before
      any rule fires throws. */
  method Execute(strategy: Strategy, ctx: ExecutionContext) returns (r: Option<string>)
    ensures forall i | 0 <= i < |strategy.rules|
              && (forall j | 0 <= j < i :: GroupOutcome(strategy.rules[j].group, ctx) == Some(false)) ::
              (GroupOutcome(strategy.rules[i].group, ctx) == Some(true) ==> r == Some(strategy.rules[i].action))
              && (GroupOutcome(strategy.rules[i].group, ctx).None? ==> r.None?)
    ensures (forall j | 0 <= j < |strategy.rules| :: GroupOutcome(strategy.rules[j].group, ctx) == Some(false))
            ==> r == Some(strategy.defaultAction)
  {
    var i := 0;
    while i < |strategy.rules|
      invariant 0 <= i <= |strategy.rules|
      invariant forall j | 0 <= j < i :: GroupOutcome(strategy.rules[j].group, ctx) == Some(false)
    {
      var fired := EvaluateConditionGroup(strategy.rules[i].group, ctx);
      match fired {
        case None => return None;
        case Some(true) => return Some(strategy.rules[i].action);
        case Some(false) =>
      }
      i := i + 1;
    }
    return Some(strategy.defaultAction);
  }

  /** A well-formed group never throws. */
  lemma WellFormedGroupEvaluates(g: ConditionGroup, ctx: ExecutionContext)
    requires WellFormed(g)
    ensures GroupOutcome(g, ctx).Some?
  {
  }

  /** Joined only by AND, a group holds exactly when every condition holds. */
  lemma {:induction false} AllAndIsConjunction(g: ConditionGroup, ctx: ExecutionContext)
    requires WellFormed(g)
    requires forall i | 0 <= i < |g.operators| :: g.operators[i] == "AND"
    ensures GroupOutcome(g, ctx) == Some(forall i | 0 <= i < |g.conditions| :: Holds(g.conditions[i], ctx))
  {
    AndPrefix(g, ctx, |g.operators|);
  }

  lemma {:induction false} AndPrefix(g: ConditionGroup, ctx: ExecutionContext, k: nat)
    requires k < |g.conditions| && k <= |g.operators|
    requires forall i | 0 <= i < k :: g.operators[i] == "AND"
    ensures Fold(g, ctx, k) == forall i | 0 <= i <= k :: Holds(g.conditions[i], ctx)
  {
    if k > 0 {
      AndPrefix(g, ctx, k - 1);
    }
  }

  /** Joined only by OR, a group holds exactly when some condition holds. */
  lemma {:induction false} AllOrIsDisjunction(g: ConditionGroup, ctx: ExecutionContext)
    requires WellFormed(g)
    requires forall i | 0 <= i < |g.operators| :: g.operators[i] == "OR"
    ensures GroupOutcome(g, ctx) == Some(exists i | 0 <= i < |g.conditions| :: Holds(g.conditions[i], ctx))
  {
    OrPrefix(g, ctx, |g.operators|);
  }

  lemma {:induction false} OrPrefix(g: ConditionGroup, ctx: ExecutionContext, k: nat)
    requires k < |g.conditions| && k <= |g.operators|
    requires forall i | 0 <= i < k :: g.operators[i] == "OR"
    ensures Fold(g, ctx, k) == exists i | 0 <= i <= k :: Holds(g.conditions[i], ctx)
  {
    if k > 0 {
      OrPrefix(g, ctx, k - 1);
      if Holds(g.conditions[k], ctx) {
        assert exists i | 0 <= i <= k :: Holds(g.conditions[i], ctx);
      } else if exists i | 0 <= i <= k :: Holds(g.conditions[i], ctx) {
        var i :| 0 <= i <= k && Holds(g.conditions[i], ctx);
        assert i < k;
      }
    }
  }

  /** AND and OR have no precedence over each other: `A OR B AND C` is
      `(A OR B) AND C`, which is false when only A holds, where the usual
      precedence would make it true. */
  lemma LeftToRightWithoutPrecedence(a: Condition, b: Condition, c: Condition, ctx: ExecutionContext)
    ensures GroupOutcome(ConditionGroup([a, b, c], ["OR", "AND"]), ctx)
            == Some((Holds(a, ctx) || Holds(b, ctx)) && Holds(c, ctx))
  {
    var g := ConditionGroup([a, b, c], ["OR", "AND"]);
    assert Fold(g, ctx, 1) == (Holds(a, ctx) || Holds(b, ctx));
  }

  /** An unknown logical operator drops the condition that follows it. */
  lemma UnknownOperatorIgnoresNext(g: ConditionGroup, ctx: ExecutionContext, k: nat)
    requires k + 1 < |g.conditions| && k < |g.operators|
    requires !IsLogicalOp(g.operators[k])
    ensures Fold(g, ctx, k + 1) == Fold(g, ctx, k)
  {
  }

  /** A condition on an unknown field compares 0 with its value. */
  lemma UnknownFieldReadsZero(c: Condition, ctx: ExecutionContext)
    requires !IsField(c.field)
    ensures Holds(c, ctx) == Compare(0.0, c.op, c.value)
  {
  }

  /** `!=` is the negation of `==`, while against NaN every ordering
      comparison is false. */
  lemma EqualityAndNaN(x: real, v: Value)
    ensures Compare(x, "!=", v) == !Compare(x, "==", v)
    ensures Numeric(v).NaN? ==> forall op | op in ["<", ">", "<=", ">="] :: !Compare(x, op, v)
  {
  }

  /** Against a finite value, `<=` is the negation of `>` and `>=` the
      negation of `<`. */
  lemma FiniteOrderingIsTotal(x: real, v: Value)
    requires Numeric(v).Finite?
    ensures Compare(x, "<=", v) == !Compare(x, ">", v)
    ensures Compare(x, ">=", v) == !Compare(x, "<", v)
  {
  }
}
