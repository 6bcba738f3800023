/** Checking a parsed CASL strategy before it is run. The validator collects
    errors, which make the strategy invalid, and warnings, which do not; each
    check appends to one of the two lists.

    Every check is specified by a function from the report before it to the
    report after it, in the order the checks run. */
module CaslValidator {
  import opened Text
  import opened Actions
  import opened CaslTypes

  const MaxRules := 10
  const MaxConditionsPerRule := 5
  const MaxQuietNameLength := 50

  /** A rule as the messages name it: its 1-based position and its name. */
  datatype RuleRef = RuleRef(number: nat, name: string)

  /** A condition as the messages name it: its rule and its 1-based position. */
  datatype ConditionRef = ConditionRef(rule: RuleRef, number: nat)

  /** Where an action was written. */
  datatype ActionSite = InRule(rule: RuleRef) | AtDefault

  /** One error or warning, carrying the data its message interpolates. */
  datatype Issue =
    | EmptyStrategyName
    | InvalidStrategyName(name: string)
    | LongStrategyName(name: string, length: nat)
    | NoRules
    | TooManyRules(count: nat)
    | EmptyRuleName(rule: RuleRef)
    | NoConditions(rule: RuleRef)
    | TooManyConditions(rule: RuleRef, count: nat)
    | OperatorCountMismatch(rule: RuleRef, expected: nat, got: nat)
    | InvalidLogicalOperator(rule: RuleRef, op: string)
    | InvalidField(at: ConditionRef, field: string)
    | InvalidOperator(at: ConditionRef, op: string)
    | ValueNotNumber(at: ConditionRef)
    | ValueIsNaN(at: ConditionRef)
    | ValueNotFinite(at: ConditionRef)
    | HealthNegative(at: ConditionRef)
    | HealthAboveTypical(at: ConditionRef, value: Value)
    | CooldownNegative(at: ConditionRef)
    | CooldownAboveTypical(at: ConditionRef, value: Value)
    | DistanceNegative(at: ConditionRef)
    | DistanceAboveTypical(at: ConditionRef, value: Value)
    | InvalidAction(site: ActionSite, action: string)

  /** The two lists collected so far. */
  datatype Report = Report(errors: seq<Issue>, warnings: seq<Issue>)

  datatype ValidationResult = ValidationResult(valid: bool, errors: seq<Issue>, warnings: seq<Issue>)

  function Error(rep: Report, i: Issue): Report { rep.(errors := rep.errors + [i]) }

  function Warn(rep: Report, i: Issue): Report { rep.(warnings := rep.warnings + [i]) }

  predicate AllWordChars(s: string) {
    forall k | 0 <= k < |s| :: IsWordChar(s[k])
  }

  // ---------------------------------------------------------------------
  // The checks, in the order they run

  /** A blank name stops the name checks; otherwise a name that is not all
      letters, digits and underscores is an error and one longer than 50
      characters draws a warning. */
  function CheckName(rep: Report, name: string): Report {
    if IsBlank(name) then Error(rep, EmptyStrategyName)
    else
      var rep1 := if AllWordChars(name) then rep else Error(rep, InvalidStrategyName(name));
      if |name| > MaxQuietNameLength then Warn(rep1, LongStrategyName(name, |name|)) else rep1
  }

  function CheckRuleCount(rep: Report, count: nat): Report {
    var rep1 := if count == 0 then Warn(rep, NoRules) else rep;
    if count > MaxRules then Error(rep1, TooManyRules(count)) else rep1
  }

  function CheckAction(rep: Report, action: string, site: ActionSite): Report {
    if IsActionName(action) then rep else Error(rep, InvalidAction(site, action))
  }

  /** The type, NaN and finiteness checks, of which at most one fires. */
  function CheckValue(rep: Report, v: Value, at: ConditionRef): Report {
    match v
    case NonNumber(_, _) => Error(rep, ValueNotNumber(at))
    case Number(NaN) => Error(rep, ValueIsNaN(at))
    case Number(Finite(_)) => rep
    case Number(_) => Error(rep, ValueNotFinite(at))
  }

  /** The typical-range checks, which only warn. */
  function CheckRange(rep: Report, c: Condition, at: ConditionRef): Report {
    var n := Numeric(c.value);
    if c.field == EnemyHealth || c.field == SelfHealth then
      if NumBelow(n, 0.0) then Warn(rep, HealthNegative(at))
      else if NumAbove(n, 100.0) then Warn(rep, HealthAboveTypical(at, c.value))
      else rep
    else if c.field == EnemyAttackCooldown || c.field == SelfAttackCooldown then
      if NumBelow(n, 0.0) then Warn(rep, CooldownNegative(at))
      else if NumAbove(n, 3.0) then Warn(rep, CooldownAboveTypical(at, c.value))
      else rep
    else if c.field == DistanceField then
      if NumBelow(n, 0.0) then Warn(rep, DistanceNegative(at))
      else if NumAbove(n, 10.0) then Warn(rep, DistanceAboveTypical(at, c.value))
      else rep
    else rep
  }

  function CheckCondition(rep: Report, c: Condition, at: ConditionRef): Report {
    var rep1 := if IsField(c.field) then rep else Error(rep, InvalidField(at, c.field));
    var rep2 := if IsCompareOp(c.op) then rep1 else Error(rep1, InvalidOperator(at, c.op));
    CheckRange(CheckValue(rep2, c.value, at), c, at)
  }

  /** The first `k` conditions of a rule, checked in order. */
  function CheckConditions(rep: Report, rule: RuleRef, cs: seq<Condition>, k: nat): Report
    requires k <= |cs|
  {
    if k == 0 then rep
    else CheckCondition(CheckConditions(rep, rule, cs, k - 1), cs[k - 1], ConditionRef(rule, k))
  }

  function CheckOperator(rep: Report, rule: RuleRef, op: string): Report {
    if IsLogicalOp(op) then rep else Error(rep, InvalidLogicalOperator(rule, op))
  }

  /** The first `k` logical operators of a rule, checked in order. */
  function CheckOperators(rep: Report, rule: RuleRef, ops: seq<string>, k: nat): Report
    requires k <= |ops|
  {
    if k == 0 then rep else CheckOperator(CheckOperators(rep, rule, ops, k - 1), rule, ops[k - 1])
  }

  /** The rule at 0-based position `index`. With no conditions nothing after
      the condition count is checked. */
  function CheckRule(rep: Report, r: Rule, index: nat): Report {
    var ref := RuleRef(index + 1, r.name);
    var cs := r.group.conditions;
    var ops := r.group.operators;
    var rep1 := if IsBlank(r.name) then Error(rep, EmptyRuleName(ref)) else rep;
    if |cs| == 0 then Error(rep1, NoConditions(ref))
    else
      var rep2 := if |cs| > MaxConditionsPerRule then Error(rep1, TooManyConditions(ref, |cs|)) else rep1;
      var rep3 := CheckConditions(rep2, ref, cs, |cs|);
      var rep4 := if |ops| != |cs| - 1 then Error(rep3, OperatorCountMismatch(ref, |cs| - 1, |ops|)) else rep3;
      CheckAction(CheckOperators(rep4, ref, ops, |ops|), r.action, InRule(ref))
  }

  /** The first `k` rules, checked in order. */
  function CheckRules(rep: Report, rules: seq<Rule>, k: nat): Report
    requires k <= |rules|
  {
    if k == 0 then rep else CheckRule(CheckRules(rep, rules, k - 1), rules[k - 1], k - 1)
  }

  function CheckStrategy(rep: Report, s: Strategy): Report {
    var rep1 := CheckRuleCount(CheckName(rep, s.name), |s.rules|);
    CheckAction(CheckRules(rep1, s.rules, |s.rules|), s.defaultAction, AtDefault)
  }

  // ---------------------------------------------------------------------
  // What an acceptable strategy is, stated independently of the checks

  predicate AcceptableCondition(c: Condition) {
    IsField(c.field) && IsCompareOp(c.op) && c.value.Number? && c.value.n.Finite?
  }

  predicate AcceptableRule(r: Rule) {
    && !IsBlank(r.name)
    && 1 <= |r.group.conditions| <= MaxConditionsPerRule
    && |r.group.operators| == |r.group.conditions| - 1
    && (forall k | 0 <= k < |r.group.conditions| :: AcceptableCondition(r.group.conditions[k]))
    && (forall k | 0 <= k < |r.group.operators| :: IsLogicalOp(r.group.operators[k]))
    && IsActionName(r.action)
  }

  /** A non-empty name of letters, digits and underscores, at most ten rules,
      each acceptable, and a known default action. */
  predicate Acceptable(s: Strategy) {
    && |s.name| > 0 && AllWordChars(s.name)
    && |s.rules| <= MaxRules
    && (forall i | 0 <= i < |s.rules| :: AcceptableRule(s.rules[i]))
    && IsActionName(s.defaultAction)
  }

  // ---------------------------------------------------------------------
  // The validator object

  class Validator {
    var errors: seq<Issue>
    var warnings: seq<Issue>

    constructor()
      ensures errors == [] && warnings == []
    {
      errors := [];
      warnings := [];
    }

    /** Clears both lists, runs every check in order and reports the
        strategy valid exactly when no error was recorded. */
    method Validate(s: Strategy) returns (result: ValidationResult)
      modifies this
      ensures Report(errors, warnings) == CheckStrategy(Report([], []), s)
      ensures result == ValidationResult(errors == [], errors, warnings)
    {
      errors := [];
      warnings := [];
      ValidateStrategyName(s.name);
      ValidateRuleCount(|s.rules|);
      ghost var start := Report(errors, warnings);
      var i := 0;
      while i < |s.rules|
        invariant 0 <= i <= |s.rules|
        invariant Report(errors, warnings) == CheckRules(start, s.rules, i)
      {
        ValidateRule(s.rules[i], i);
        i := i + 1;
      }
      ValidateAction(s.defaultAction, AtDefault);
      result := ValidationResult(errors == [], errors, warnings);
    }

    method ValidateStrategyName(name: string)
      modifies this
      ensures Report(errors, warnings) == CheckName(Report(old(errors), old(warnings)), name)
    {
      TrimEmptyIffBlank(name);
      if name == [] || Trim(name) == [] {
        errors := errors + [EmptyStrategyName];
        return;
      }
      if !AllWordChars(name) {
        errors := errors + [InvalidStrategyName(name)];
      }
      if |name| > MaxQuietNameLength {
        warnings := warnings + [LongStrategyName(name, |name|)];
      }
    }

    method ValidateRuleCount(count: nat)
      modifies this
      ensures Report(errors, warnings) == CheckRuleCount(Report(old(errors), old(warnings)), count)
    {
      if count == 0 {
        warnings := warnings + [NoRules];
      }
      if count > MaxRules {
        errors := errors + [TooManyRules(count)];
      }
    }

    method ValidateRule(r: Rule, index: nat)
      modifies this
      ensures Report(errors, warnings) == CheckRule(Report(old(errors), old(warnings)), r, index)
    {
      var ref := RuleRef(index + 1, r.name);
      var cs := r.group.conditions;
      var ops := r.group.operators;
      TrimEmptyIffBlank(r.name);
      if r.name == [] || Trim(r.name) == [] {
        errors := errors + [EmptyRuleName(ref)];
      }
      if |cs| == 0 {
        errors := errors + [NoConditions(ref)];
        return;
      }
      if |cs| > MaxConditionsPerRule {
        errors := errors + [TooManyConditions(ref, |cs|)];
      }
      ValidateConditions(ref, cs);
      if |ops| != |cs| - 1 {
        errors := errors + [OperatorCountMismatch(ref, |cs| - 1, |ops|)];
      }
      ValidateOperators(ref, ops);
      ValidateAction(r.action, InRule(ref));
    }

    /** The check applied to each condition of a rule, in order. */
    method ValidateConditions(ref: RuleRef, cs: seq<Condition>)
      modifies this
      ensures Report(errors, warnings) == CheckConditions(Report(old(errors), old(warnings)), ref, cs, |cs|)
    {
      var k := 0;
      while k < |cs|
        invariant 0 <= k <= |cs|
        invariant Report(errors, warnings) == CheckConditions(Report(old(errors), old(warnings)), ref, cs, k)
      {
        ValidateCondition(cs[k], ConditionRef(ref, k + 1));
        k := k + 1;
      }
    }

    /** The check applied to each logical operator of a rule, in order. */
    method ValidateOperators(ref: RuleRef, ops: seq<string>)
      modifies this
      ensures Report(errors, warnings) == CheckOperators(Report(old(errors), old(warnings)), ref, ops, |ops|)
    {
      var j := 0;
      while j < |ops|
        invariant 0 <= j <= |ops|
        invariant Report(errors, warnings) == CheckOperators(Report(old(errors), old(warnings)), ref, ops, j)
      {
        if !IsLogicalOp(ops[j]) {
          errors := errors + [InvalidLogicalOperator(ref, ops[j])];
        }
        j := j + 1;
      }
    }

    method ValidateCondition(c: Condition, at: ConditionRef)
      modifies this
      ensures Report(errors, warnings) == CheckCondition(Report(old(errors), old(warnings)), c, at)
    {
      if !IsField(c.field) {
        errors := errors + [InvalidField(at, c.field)];
      }
      if !IsCompareOp(c.op) {
        errors := errors + [InvalidOperator(at, c.op)];
      }
      match c.value {
        case NonNumber(_, _) => errors := errors + [ValueNotNumber(at)];
        case Number(NaN) => errors := errors + [ValueIsNaN(at)];
        case Number(Finite(_)) =>
        case Number(_) => errors := errors + [ValueNotFinite(at)];
      }
      var n := Numeric(c.value);
      if c.field == EnemyHealth || c.field == SelfHealth {
        if NumBelow(n, 0.0) {
          warnings := warnings + [HealthNegative(at)];
        } else if NumAbove(n, 100.0) {
          warnings := warnings + [HealthAboveTypical(at, c.value)];
        }
      }
      if c.field == EnemyAttackCooldown || c.field == SelfAttackCooldown {
        if NumBelow(n, 0.0) {
          warnings := warnings + [CooldownNegative(at)];
        } else if NumAbove(n, 3.0) {
          warnings := warnings + [CooldownAboveTypical(at, c.value)];
        }
      }
      if c.field == DistanceField {
        if NumBelow(n, 0.0) {
          warnings := warnings + [DistanceNegative(at)];
        } else if NumAbove(n, 10.0) {
          warnings := warnings + [DistanceAboveTypical(at, c.value)];
        }
      }
    }

    method ValidateAction(action: string, site: ActionSite)
      modifies this
      ensures Report(errors, warnings) == CheckAction(Report(old(errors), old(warnings)), action, site)
    {
      if !IsActionName(action) {
        errors := errors + [InvalidAction(site, action)];
      }
    }
  }

  /** Validates with a fresh validator: valid exactly when the strategy is
      acceptable. */
  method ValidateStrategy(s: Strategy) returns (result: ValidationResult)
    ensures result.valid <==> Acceptable(s)
    ensures Report(result.errors, result.warnings) == CheckStrategy(Report([], []), s)
  {
    var v := new Validator();
    result := v.Validate(s);
    ValidIffAcceptable(s, []);
  }

  // ---------------------------------------------------------------------
  // Properties

  /** Starting from any warnings, the checks record no error exactly when
      the strategy is acceptable. */
  lemma ValidIffAcceptable(s: Strategy, warnings: seq<Issue>)
    ensures CheckStrategy(Report([], warnings), s).errors == [] <==> Acceptable(s)
  {
    var rep := Report([], warnings);
    var rep1 := CheckRuleCount(CheckName(rep, s.name), |s.rules|);
    NameClean(rep, s.name);
    RulesClean(rep1, s.rules, |s.rules|);
  }

  lemma NameClean(rep: Report, name: string)
    ensures CheckName(rep, name).errors == [] <==> rep.errors == [] && |name| > 0 && AllWordChars(name)
  {
    if |name| > 0 && AllWordChars(name) {
      assert !IsSpace(name[0]);
    }
  }

  lemma {:induction false} RulesClean(rep: Report, rules: seq<Rule>, k: nat)
    requires k <= |rules|
    ensures CheckRules(rep, rules, k).errors == []
            <==> rep.errors == [] && forall i | 0 <= i < k :: AcceptableRule(rules[i])
  {
    if k > 0 {
      RulesClean(rep, rules, k - 1);
      RuleClean(CheckRules(rep, rules, k - 1), rules[k - 1], k - 1);
    }
  }

  lemma RuleClean(rep: Report, r: Rule, index: nat)
    ensures CheckRule(rep, r, index).errors == [] <==> rep.errors == [] && AcceptableRule(r)
  {
    var ref := RuleRef(index + 1, r.name);
    var cs := r.group.conditions;
    var ops := r.group.operators;
    if |cs| > 0 {
      var rep1 := if IsBlank(r.name) then Error(rep, EmptyRuleName(ref)) else rep;
      var rep2 := if |cs| > MaxConditionsPerRule then Error(rep1, TooManyConditions(ref, |cs|)) else rep1;
      var rep3 := CheckConditions(rep2, ref, cs, |cs|);
      var rep4 := if |ops| != |cs| - 1 then Error(rep3, OperatorCountMismatch(ref, |cs| - 1, |ops|)) else rep3;
      ConditionsClean(rep2, ref, cs, |cs|);
      OperatorsClean(rep4, ref, ops, |ops|);
    }
  }

  lemma {:induction false} ConditionsClean(rep: Report, rule: RuleRef, cs: seq<Condition>, k: nat)
    requires k <= |cs|
    ensures CheckConditions(rep, rule, cs, k).errors == []
            <==> rep.errors == [] && forall i | 0 <= i < k :: AcceptableCondition(cs[i])
  {
    if k > 0 {
      ConditionsClean(rep, rule, cs, k - 1);
      ConditionClean(CheckConditions(rep, rule, cs, k - 1), cs[k - 1], ConditionRef(rule, k));
    }
  }

  /** A condition adds an error exactly when it is not acceptable. */
  lemma ConditionClean(rep: Report, c: Condition, at: ConditionRef)
    ensures CheckCondition(rep, c, at).errors == [] <==> rep.errors == [] && AcceptableCondition(c)
  {
    var rep1 := if IsField(c.field) then rep else Error(rep, InvalidField(at, c.field));
    var rep2 := if IsCompareOp(c.op) then rep1 else Error(rep1, InvalidOperator(at, c.op));
    RangeOnlyWarns(CheckValue(rep2, c.value, at), c, at);
  }

  lemma {:induction false} OperatorsClean(rep: Report, rule: RuleRef, ops: seq<string>, k: nat)
    requires k <= |ops|
    ensures CheckOperators(rep, rule, ops, k).errors == []
            <==> rep.errors == [] && forall i | 0 <= i < k :: IsLogicalOp(ops[i])
  {
    if k > 0 {
      OperatorsClean(rep, rule, ops, k - 1);
    }
  }

  /** The typical-range checks never add an error, and a health value above
      100 draws exactly one warning. */
  lemma RangeOnlyWarns(rep: Report, c: Condition, at: ConditionRef)
    ensures CheckRange(rep, c, at).errors == rep.errors
    ensures (c.field == SelfHealth || c.field == EnemyHealth) && c.value.Number? && c.value.n.Finite?
            && c.value.n.r > 100.0
            ==> CheckRange(rep, c, at).warnings == rep.warnings + [HealthAboveTypical(at, c.value)]
  {
  }

  /** Warnings never decide validity: a strategy with no rules draws a
      warning and is still acceptable. */
  lemma WarningDoesNotInvalidate()
    ensures var s := Strategy("Bot", [], "IDLE");
            CheckStrategy(Report([], []), s).warnings == [NoRules] && Acceptable(s)
  {
    assert !IsBlank("Bot") by {
      assert !IsSpace("Bot"[0]);
    }
    assert AllWordChars("Bot");
  }
}
