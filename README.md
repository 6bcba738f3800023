# Coder Arena, core logic in Dafny

Coder Arena is a multiplayer game. Two players each program a fighter, then
watch the fighters battle on a grid, tick by tick. This project models the
server-side and client-side logic that decides what happens in a game, and
proves properties about it.

**The fighting language.**
- A fighter is programmed in CASL, a small rule language:
  - `STRATEGY name`;
  - rules of the form `RULE "name" { WHEN conditions DO action }`;
  - a `DEFAULT action`.
- The CASL parser turns source text into a strategy. The validator checks that strategy against fixed tables of fields, operators and actions, and against limits. The executor picks the action of the first rule whose conditions hold.
- An older rule engine does the same job for a fixed set of condition kinds.
- The tick simulator applies both fighters' actions: movement, attacks in range, blocking that halves damage, and cooldowns.
- Players can also write JavaScript:
  - action buttons, which are checked against a table of forbidden constructs;
  - whole fighters, which are checked by a validator that screens the text and then inspects the parsed program.

**The match flow.**
- A player logs in under a username and waits in the lobby.
- The player then either joins the matchmaking queue or opens a private room with a six-character code.
- Two players are paired into a match. In preparation, each player submits CASL code and declares themselves ready, under a 30-second countdown. The battle then starts, and the match ends finished.
- Losers can ask for a rematch. Spectators can watch a match.
- On the client, a stats store records each result, and achievements unlock when thresholds are met.

**How the model is built.**
- Objects whose fields the source updates become Dafny classes:
  - the managers;
  - `Match`, `Room`, `Player` and the fighters;
  - the parser and validator objects;
  - the stats and achievements stores.
- Each method is proved against a function on a snapshot of the state. The properties are then proved about those functions.
- Pure string and arithmetic code becomes functions and lemmas.
- Regular expressions are modelled as hand-written scanners that return what the JavaScript regular expression captures.
- Clocks, random ids and random room codes are parameters.

**Where the code and the documentation disagree, the model follows the code:**
- The comment on `simulateTick` says an attack needs a distance below 2. The code tests `distance <= ATTACK_RANGE` (server/src/engine/simulator.ts:51, 77, 91), and the model follows the code.
- Broader design descriptions of the game mention a few things the code does not do, and the model leaves them out:
  - per-fighter statistics of attacks landed;
  - miss events;
  - a terminal condition inside the tick.
- The attack cooldown is set to 3 ticks and decremented in the same tick, so a fighter that has just landed an attack ends the tick with a cooldown of 2. The model follows this.

## Model

| member | source | states |
|---|---|---|
| CaslParser.Parser.constructor | server/src/engine/casl/CASLParser.ts:20-23 | a new parser holds the code and no errors |
| CaslParser.Parser.Parse | server/src/engine/casl/CASLParser.ts:28-67 | the result is the parse outcome of the code, and the error field equals the reported errors |
| CaslParser.ParseOutcome | server/src/engine/casl/CASLParser.ts:36-62 | success exactly when there are no errors, and exactly when a strategy is returned; without STRATEGY the only error is the missing strategy; without DEFAULT the rule errors come first, then the missing default; on success the strategy holds one rule per well-formed RULE block, in source order |
| CaslParser.OutcomesPartition | server/src/engine/casl/CASLParser.ts:101-111 | every RULE block yields either a rule or an error, never both, never neither |
| CaslParser.ParseCode | server/src/engine/casl/CASLParser.ts:203-206 | the convenience entry point gives the same outcome as a fresh parser |
| CaslParser.StripLineComments | server/src/engine/casl/CASLParser.ts:74 | the stripped text has no `//` comment left, is no longer than the input, and keeps a first character that opens no comment |
| CaslParser.StripBlockComments | server/src/engine/casl/CASLParser.ts:76 | the stripped text is no longer than the input |
| CaslParser.CloseFrom | server/src/engine/casl/CASLParser.ts:76 | the lazy `/*...*/` match closes at a `*/` that really is in the text, or there is none |
| CaslParser.LinePrefixKept | server/src/engine/casl/CASLParser.ts:74 | text before which no `//` starts passes the line-comment pass unchanged |
| CaslParser.LineCommentDropped | server/src/engine/casl/CASLParser.ts:74 | a `//` comment up to the line end is removed and the line break kept |
| CaslParser.CommentToLineFeed | server/src/engine/casl/CASLParser.ts:74 | a leading `//` comment is replaced by nothing, up to its line break |
| CaslParser.BlockPrefixKept | server/src/engine/casl/CASLParser.ts:76 | text without `/` passes the block-comment pass unchanged |
| CaslParser.ClosedBlockLineKept | server/src/engine/casl/CASLParser.ts:74 | the line-comment pass leaves a closed `/*...*/` comment alone |
| CaslParser.ClosedBlockDropped | server/src/engine/casl/CASLParser.ts:76 | a closed `/*...*/` comment with no `*/` inside is removed entirely |
| CaslParser.LineCommentIgnored | server/src/engine/casl/CASLParser.ts:72-78 | code with a line comment cleans to the same text as the code without it |
| CaslParser.BlockCommentIgnored | server/src/engine/casl/CASLParser.ts:72-78 | a block comment containing no `/`, after code with no `/`, cleans to the same text as the code without it |
| CaslParser.CleanCode | server/src/engine/casl/CASLParser.ts:72-78 | cleaning never lengthens the code; comments are dropped as the two lemmas above state |
| CaslParser.KeywordWordAt | server/src/engine/casl/CASLParser.ts:84 | a keyword match captures a non-empty run of word characters |
| CaslParser.StrategyAt | server/src/engine/casl/CASLParser.ts:83-89 | the strategy name is the word after the STRATEGY keyword |
| CaslParser.FirstMatch | server/src/engine/casl/CASLParser.ts:84 | a regular-expression search reports nothing exactly when no position matches, else the capture at the leftmost matching position |
| CaslParser.FindStrategy | server/src/engine/casl/CASLParser.ts:83-89 | none exactly when no position matches; otherwise the name captured at the leftmost match |
| CaslParser.FindKeywordWord | server/src/engine/casl/CASLParser.ts:192 | none exactly when the keyword is followed by no word anywhere; otherwise the word captured at the leftmost match |
| CaslParser.RuleAt | server/src/engine/casl/CASLParser.ts:98 | a RULE match has a non-empty quoted name without quotes and a body without `}`, and ends after where it starts |
| CaslParser.RuleNameFrom | server/src/engine/casl/CASLParser.ts:98 | the quoted name is non-empty, quote-free, and followed by a brace-free body |
| CaslParser.RuleBodyFrom | server/src/engine/casl/CASLParser.ts:98 | the rule body ends at the first `}` and contains none |
| CaslParser.FindRule | server/src/engine/casl/CASLParser.ts:101-111 | the scanner always advances past a match, so the exec loop terminates |
| CaslParser.ExtractFromAppends | server/src/engine/casl/CASLParser.ts:94-114 | the exec loop appends the parsed rules and the rule errors of the remaining matches to what it had |
| CaslParser.Parser.ExtractRules | server/src/engine/casl/CASLParser.ts:94-114 | the rules are those of the successfully parsed RULE blocks, and one error per failed block is appended to the parser's errors |
| CaslParser.RuleOf | server/src/engine/casl/CASLParser.ts:119-142 | a parsed rule keeps its quoted name |
| CaslParser.RuleErrors | server/src/engine/casl/CASLParser.ts:109 | every error raised inside a rule is reported as a rule error |
| CaslParser.Parser.ParseRule | server/src/engine/casl/CASLParser.ts:119-142 | the rule is parsed from WHEN text and DO action as the rule function says, including the missing-WHEN and missing-DO failures |
| CaslParser.DoSeparatorFrom | server/src/engine/casl/CASLParser.ts:121 | the lazy WHEN capture stops where `\s+DO\s+` really matches |
| CaslParser.FieldEnd | server/src/engine/casl/CASLParser.ts:174 | the field capture is a maximal run of word characters and dots |
| CaslParser.OperatorAt | server/src/engine/casl/CASLParser.ts:174 | a recognised operator is one of the six comparison operators and is written at that place |
| CaslParser.DecimalValue | server/src/engine/casl/CASLParser.ts:183 | a decimal literal denotes a non-negative number |
| CaslParser.NumberFrom | server/src/engine/casl/CASLParser.ts:174-183 | a number read from a condition is non-negative |
| CaslParser.ConditionSyntax | server/src/engine/casl/CASLParser.ts:172-186 | a parsed condition has a non-empty field, a comparison operator, and a finite non-negative numeric value |
| CaslParser.ConditionRoundTrip | server/src/engine/casl/CASLParser.ts:172-186 | writing a condition as `field op number` and parsing it gives back the condition's meaning |
| CaslParser.ConditionOf | server/src/engine/casl/CASLParser.ts:172-186 | `parseCondition` on the trimmed text; its meaning is given by the round trip above |
| CaslParser.ReadCondition | server/src/engine/casl/CASLParser.ts:172-186 | any text laid out as field, space, operator, space, digits parses to that condition |
| CaslParser.SeparatorAt | server/src/engine/casl/CASLParser.ts:152 | the split regex only captures AND or OR and consumes at least one character |
| CaslParser.SplitFrom | server/src/engine/casl/CASLParser.ts:152 | splitting always yields at least one piece |
| CaslParser.SplitWithoutSeparator | server/src/engine/casl/CASLParser.ts:152 | text with no `\s+(AND\|OR)\s+` splits into itself |
| CaslParser.SplitAtFirstSeparator | server/src/engine/casl/CASLParser.ts:152 | the split cuts at the first separator, yielding the text before it, the captured operator, then the split of the rest |
| CaslParser.SplitJoin | server/src/engine/casl/CASLParser.ts:152 | conditions joined by ` AND `/` OR ` split back into the conditions interleaved with the operators |
| CaslParser.GroupFromPieces | server/src/engine/casl/CASLParser.ts:154-164 | the piece loop puts the conditions and operators of interleaved pieces into the group, in order |
| CaslParser.GroupOfJoin | server/src/engine/casl/CASLParser.ts:147-167 | parsing joined condition texts yields exactly those conditions and operators |
| CaslParser.GroupRoundTrip | server/src/engine/casl/CASLParser.ts:147-186 | writing a condition group out and parsing it gives back the group |
| CaslParser.Parser.ParseConditions | server/src/engine/casl/CASLParser.ts:147-167 | the condition loop returns the group the split pieces denote, or the first bad condition's error |
| CaslValidator.Validator.constructor | server/src/engine/casl/CASLValidator.ts:44-47 | a new validator has no errors and no warnings |
| CaslValidator.Validator.Validate | server/src/engine/casl/CASLValidator.ts:52-75 | the errors and warnings are reset, then accumulated by the checks in source order; valid means no errors |
| CaslValidator.Validator.ValidateStrategyName | server/src/engine/casl/CASLValidator.ts:80-97 | appends the name errors and the long-name warning |
| CaslValidator.Validator.ValidateRuleCount | server/src/engine/casl/CASLValidator.ts:102-112 | appends the too-many-rules error or the no-rules warning |
| CaslValidator.Validator.ValidateRule | server/src/engine/casl/CASLValidator.ts:117-162 | appends the rule's name, condition-count, condition, operator and action findings in source order |
| CaslValidator.Validator.ValidateConditions | server/src/engine/casl/CASLValidator.ts:139-141 | checks each condition in order |
| CaslValidator.Validator.ValidateOperators | server/src/engine/casl/CASLValidator.ts:152-158 | reports each operator that is neither AND nor OR |
| CaslValidator.Validator.ValidateCondition | server/src/engine/casl/CASLValidator.ts:167-215 | appends the field, operator and value errors, and the range warnings |
| CaslValidator.Validator.ValidateAction | server/src/engine/casl/CASLValidator.ts:220-226 | appends an error for an action outside the action table |
| CaslValidator.ValidateStrategy | server/src/engine/casl/CASLValidator.ts:232-235 | valid exactly when the strategy is acceptable: a non-empty word-character name, at most 10 rules, each rule named and with 1 to 5 well-formed conditions joined by exactly one AND/OR fewer, and known actions |
| CaslValidator.ValidIffAcceptable | server/src/engine/casl/CASLValidator.ts:52-75 | no error is reported exactly when the strategy is acceptable, whatever warnings came before |
| CaslValidator.NameClean | server/src/engine/casl/CASLValidator.ts:80-97 | the name adds no error exactly when it is non-empty and made of word characters |
| CaslValidator.RulesClean | server/src/engine/casl/CASLValidator.ts:63-65 | the rules add no error exactly when each of them is acceptable |
| CaslValidator.RuleClean | server/src/engine/casl/CASLValidator.ts:117-162 | a rule adds no error exactly when it is acceptable |
| CaslValidator.ConditionsClean | server/src/engine/casl/CASLValidator.ts:139-141 | the conditions add no error exactly when each has a known field and operator and a finite number |
| CaslValidator.ConditionClean | server/src/engine/casl/CASLValidator.ts:167-215 | a condition adds no error exactly when its field and operator are known and its value is a finite number |
| CaslValidator.OperatorsClean | server/src/engine/casl/CASLValidator.ts:152-158 | the operators add no error exactly when each is AND or OR |
| CaslValidator.RangeOnlyWarns | server/src/engine/casl/CASLValidator.ts:192-214 | the range checks never add an error; a health above 100 adds the health warning |
| CaslValidator.WarningDoesNotInvalidate | server/src/engine/casl/CASLValidator.ts:103-105 | a strategy without rules is warned about but still valid |
| CaslExecutor.EvaluateConditionGroup | server/src/engine/casl/CASLExecutor.ts:46-71 | an empty group is false; a group with too few conditions for its operators throws; otherwise the conditions fold left to right |
| CaslExecutor.Execute | server/src/engine/casl/CASLExecutor.ts:24-34 | also stands for `executeStrategy` (CASLExecutor.ts:125-131), which builds an executor and calls `execute`: the action of the first rule whose group holds, after rules whose groups are false; a throwing group aborts the scan; the default when no rule holds |
| CaslExecutor.WellFormedGroupEvaluates | server/src/engine/casl/CASLExecutor.ts:46-71 | a group with one operator fewer than conditions never throws |
| CaslExecutor.AllAndIsConjunction | server/src/engine/casl/CASLExecutor.ts:58-68 | a group joined only by AND holds exactly when all its conditions hold |
| CaslExecutor.AllOrIsDisjunction | server/src/engine/casl/CASLExecutor.ts:58-68 | a group joined only by OR holds exactly when some condition holds |
| CaslExecutor.AndPrefix | server/src/engine/casl/CASLExecutor.ts:58-68 | a fold over AND so far is the conjunction of the conditions so far |
| CaslExecutor.OrPrefix | server/src/engine/casl/CASLExecutor.ts:58-68 | a fold over OR so far is the disjunction of the conditions so far |
| CaslExecutor.LeftToRightWithoutPrecedence | server/src/engine/casl/CASLExecutor.ts:58-68 | `a OR b AND c` means `(a OR b) AND c`, not `a OR (b AND c)` |
| CaslExecutor.UnknownOperatorIgnoresNext | server/src/engine/casl/CASLExecutor.ts:58-68 | an operator other than AND or OR skips the condition after it |
| CaslExecutor.UnknownFieldReadsZero | server/src/engine/casl/CASLExecutor.ts:104-119 | a condition on an unknown field compares 0 |
| CaslExecutor.FieldValue | server/src/engine/casl/CASLExecutor.ts:104-119 | the five known fields read their value from the context, any other reads 0, as the lemma above states |
| CaslExecutor.EqualityAndNaN | server/src/engine/casl/CASLExecutor.ts:76-99 | `!=` is the negation of `==`, and no ordering holds against NaN |
| CaslExecutor.FiniteOrderingIsTotal | server/src/engine/casl/CASLExecutor.ts:76-99 | against a finite number `<=` is the negation of `>`, and `>=` of `<` |
| CaslExecutor.Holds | server/src/engine/casl/CASLExecutor.ts:76-99 | a condition holds when its field's value compares with its number; its properties are the two lemmas above |
| RuleEngine.SquaredDistance | server/src/engine/ruleEngine.ts:8-12 | the squared distance is non-negative and zero exactly on the same square |
| RuleEngine.DistanceComparisons | server/src/engine/ruleEngine.ts:8-38 | comparing the squared distance with the squared threshold decides exactly what comparing the square-root distance decides |
| RuleEngine.SquareMonotone | server/src/engine/ruleEngine.ts:8-12 | squaring keeps the order of non-negative numbers |
| RuleEngine.DistanceSymmetric | server/src/engine/ruleEngine.ts:8-12 | the distance does not depend on which fighter looks |
| RuleEngine.SelfIsEnemyOfOpponent | server/src/engine/ruleEngine.ts:18-55 | a self condition for one fighter is the enemy condition for the other, and distance conditions agree |
| RuleEngine.StrictAtThreshold | server/src/engine/ruleEngine.ts:23-50 | the health comparisons are strict and the cooldown test is equality |
| RuleEngine.ConditionHolds | server/src/engine/ruleEngine.ts:18-50 | one condition for a fighter facing an opponent; its properties are the lemmas above |
| RuleEngine.EvaluateRules | server/src/engine/ruleEngine.ts:65-72 | the chosen action is IDLE or the action of some rule |
| RuleEngine.FirstMatchWins | server/src/engine/ruleEngine.ts:65-72 | the action of the first rule whose condition holds is chosen |
| RuleEngine.NoMatchIsIdle | server/src/engine/ruleEngine.ts:71 | when no rule holds the action is IDLE |
| Simulator.Sign | server/src/engine/simulator.ts:16-43 | the direction of a step is -1, 0 or 1, following the sign of the difference |
| Simulator.ApplyMovement | server/src/engine/simulator.ts:16-43 | the fighter moves one step per axis toward (APPROACH) or away from (RETREAT) the opponent, and otherwise stays |
| Simulator.ResolveAction | server/src/engine/simulator.ts:77-102 | an attack in range off cooldown lands, sets the cooldown and deals 10, or 5 against a block; blocking is set for BLOCK |
| Simulator.ExchangeBlows | server/src/engine/simulator.ts:77-106 | both attacks are judged on the state before the tick and the damage of each lands on the other |
| Simulator.EndOfTick | server/src/engine/simulator.ts:113-122 | the cooldown goes down by one (not below 0) and the action is recorded |
| Simulator.SimulateTick | server/src/engine/simulator.ts:60-128 | both fighters end as the tick function says and the tick count goes up by one |
| Simulator.AttackLanding | server/src/engine/simulator.ts:77-91 | an attack lands exactly when the distance is at most 2 and the attacker's cooldown is 0 |
| Simulator.DamageTaken | server/src/engine/simulator.ts:79-106 | each fighter loses 10 for a landed hit, 5 when blocking, and nothing otherwise |
| Simulator.HealthNeverRises | server/src/engine/simulator.ts:105-106 | no tick raises health |
| Simulator.SimultaneousHitsGoBelowZero | server/src/engine/simulator.ts:105-106 | health is not clamped: simultaneous hits can take it below 0 |
| Simulator.CooldownAfterTick | server/src/engine/simulator.ts:85-118 | after landing a hit the cooldown is 2; otherwise it goes down by one, not below 0 |
| Simulator.FlagsAndRecord | server/src/engine/simulator.ts:67-122 | blocking marks BLOCK, attacking only an ATTACK, the last action is recorded and maximum health kept |
| Simulator.MissedAttack | server/src/engine/simulator.ts:77-88 | an attack out of range or on cooldown does nothing to the opponent |
| Simulator.MoveAgainst | server/src/engine/simulator.ts:16-43 | approaching shortens the gap on each axis by one step and retreating lengthens it; other actions do not move |
| Simulator.MovementOrder | server/src/engine/simulator.ts:109-110 | A moves against B's old position and B against A's new one |
| Simulator.ApproachOntoSameSquare | server/src/engine/simulator.ts:109-110 | two approaching fighters one square apart end on the same square |
| Actions.NameIsActionName | shared/types/actions.ts:1 | every action has a name in the action table and reading the name gives the action back |
| Actions.FromName | shared/types/actions.ts:1 | reading an action name gives the action written so |
| ActionManager.DefaultButtons | server/src/managers/ActionManager.ts:27-58 | the four default buttons with their ids, actions, owner, match, 1500 ms cooldown and no use yet |
| ActionManager.CustomButton | server/src/managers/ActionManager.ts:64-87 | a custom button has the 5000 ms cooldown, no use yet, is not default, and does ATTACK unless told otherwise |
| ActionManager.FindFrom | server/src/managers/ActionManager.ts:103 | finds the first button with the id, or reports that none has it |
| ActionManager.ActionManager.constructor | server/src/managers/ActionManager.ts:39 | a new manager has no buttons |
| ActionManager.ActionManager.InitDefaultActions | server/src/managers/ActionManager.ts:45-58 | the player's buttons become the four defaults |
| ActionManager.ActionManager.RegisterAction | server/src/managers/ActionManager.ts:64-87 | the custom button is appended to the player's buttons |
| ActionManager.ActionManager.TriggerAction | server/src/managers/ActionManager.ts:94-116 | the outcome and the new buttons are those of the trigger function |
| ActionManager.TriggerUnknown | server/src/managers/ActionManager.ts:98-106 | an unknown player or button id fails and changes nothing |
| ActionManager.TriggerSucceedsIff | server/src/managers/ActionManager.ts:108-115 | a trigger succeeds exactly when the button was never used or its cooldown has passed; success returns its actions and stamps it, failure returns the remaining time and changes nothing |
| ActionManager.CooldownRemainingBounds | server/src/managers/ActionManager.ts:110-112 | the remaining cooldown reported is positive and at most the cooldown |
| ActionManager.OnlyTriggeredButtonChanges | server/src/managers/ActionManager.ts:114 | a trigger changes only the use time of the button found, and no other player's buttons |
| ActionManager.TriggeredThenCooling | server/src/managers/ActionManager.ts:108-127 | after a trigger the button is on cooldown exactly until its cooldown has passed |
| ActionManager.ActionManager.IsOnCooldown | server/src/managers/ActionManager.ts:121-127 | on cooldown exactly when a trigger now would be refused for cooldown |
| ActionManager.ActionManager.GetAvailableActions | server/src/managers/ActionManager.ts:132-134 | the player's buttons, none for an unknown player |
| ActionManager.ActionManager.ClearActions | server/src/managers/ActionManager.ts:139-141 | the player's buttons are gone |
| ActionManager.FindSameIds | server/src/managers/ActionManager.ts:103 | the search depends only on the ids |
| ActionManager.RegisteredIsFound | server/src/managers/ActionManager.ts:64-103 | a newly registered button with a fresh id is what a trigger finds |
| ActionButtonParser.IdentEnd | server/src/engine/js/ActionButton.ts:53 | the identifier capture is the maximal run of identifier characters |
| ActionButtonParser.FunctionNameAt | server/src/engine/js/ActionButton.ts:53 | a function declaration at a position names an identifier |
| ActionButtonParser.FirstFunctionFrom | server/src/engine/js/ActionButton.ts:53 | the first position where a function declaration matches |
| ActionButtonParser.ExtractFunctionName | server/src/engine/js/ActionButton.ts:52-55 | empty exactly when no function declaration occurs; otherwise the identifier of the leftmost declaration, as the first regular-expression match |
| ActionButtonParser.DeclaredNameFound | server/src/engine/js/ActionButton.ts:52-55 | `function name(` at the start yields that name |
| ActionButtonParser.SpaceCapitalsUnspaced | server/src/engine/js/ActionButton.ts:64 | inserting spaces before capitals adds nothing but spaces |
| ActionButtonParser.TrimUnspaced | server/src/engine/js/ActionButton.ts:64 | trimming removes only spaces |
| ActionButtonParser.HumanizeKeepsName | server/src/engine/js/ActionButton.ts:61-66 | the display name spells the function name, capitalised, with spaces only between words |
| ActionButtonParser.HumanizeTwoWords | server/src/engine/js/ActionButton.ts:61-66 | a camel-case two-word name is shown as two words with a capital first letter |
| ActionButtonParser.HumanizeCustom | server/src/engine/js/ActionButton.ts:43 | a missing name is shown as "Custom" |
| ActionButtonParser.HumanizeName | server/src/engine/js/ActionButton.ts:61-66 | no name is shown as "Custom Action"; otherwise the name spaced before capitals, trimmed, first letter upper-cased |
| ActionButtonParser.ExtractedActionsInTableOrder | server/src/engine/js/ActionButton.ts:72-81 | the recognised actions in table order, or ATTACK when the code calls none |
| ActionButtonParser.ExtractedActionsDistinct | server/src/engine/js/ActionButton.ts:72-81 | the action list is never empty and has no repeats |
| ActionButtonParser.ExtractActions | server/src/engine/js/ActionButton.ts:72-81 | the loop returns the recognised actions |
| ActionButtonParser.Parse | server/src/engine/js/ActionButton.ts:41-47 | the button's actions are the recognised ones, and its name is the humanised function name, or "Custom" without one |
| ActionButtonParser.CodeErrorsEmptyIff | server/src/engine/js/ActionButton.ts:87-101 | code is accepted exactly when no forbidden pattern matches and a function is declared |
| ActionButtonParser.ValidateCode | server/src/engine/js/ActionButton.ts:87-101 | valid exactly when there are no errors; otherwise the errors are the screen's messages, then the missing-function message |
| Patterns.Screen | server/src/engine/js/JSValidator.ts:34-42 | at most one message per pattern |
| Patterns.ScreenEmptyIff | server/src/engine/js/JSValidator.ts:34-42 | the screen is silent exactly when no pattern matches |
| Patterns.ScreenSound | server/src/engine/js/JSValidator.ts:34-42 | every message reported comes from a pattern that matches |
| Patterns.ScreenPrefix | server/src/engine/js/ActionButton.ts:18-31 | screening with a prefix of the table reports a prefix of the messages |
| Patterns.ScreenStep | server/src/engine/js/JSValidator.ts:34-42 | each pattern appends its message when it matches |
| Patterns.WordFound | server/src/engine/js/JSValidator.ts:10-21 | a whole word occurring in the code is found by its `\b...\b` pattern |
| Patterns.CallFound | server/src/engine/js/JSValidator.ts:10-21 | a name followed by blanks and `(` is found by its call pattern |
| Patterns.WordInsideLongerWord | server/src/engine/js/JSValidator.ts:15-17 | a name that only occurs as the start of a longer word is not flagged |
| Patterns.NameAbsent | server/src/engine/js/JSValidator.ts:10-21 | a name with a letter the code lacks occurs nowhere in it |
| Patterns.NameNeverMatches | server/src/engine/js/JSValidator.ts:10-21 | a pattern whose name has a letter the code lacks never matches |
| JsValidator.Validate | server/src/engine/js/JSValidator.ts:30-87 | forbidden constructs are reported first and stop the check; then a syntax error; then a missing Fighter class or execute method; valid exactly when nothing is reported |
| JsValidator.SyntaxErrorOf | server/src/engine/js/JSValidator.ts:46-59 | a syntax error message starts with the syntax-error prefix |
| JsValidator.FindFighter | server/src/engine/js/JSValidator.ts:62-66 | found exactly when a top-level class named Fighter exists |
| JsValidator.AsErrors | server/src/engine/js/JSValidator.ts:34-42 | one error without a line per screen message, in order |
| JsValidator.StructureErrorsIff | server/src/engine/js/JSValidator.ts:62-80 | at most one structure error, none exactly when a Fighter class with an execute method exists |
| JsValidator.ButtonScreenAddsLoops | server/src/engine/js/JSValidator.ts:10-21 | the button screen is the fighter screen plus two infinite-loop patterns |
| JsValidator.ProcessingPasses | server/src/engine/js/JSValidator.ts:15 | the word "processing" is not taken for `process` |
| JsValidator.ImportantPasses | server/src/engine/js/JSValidator.ts:17 | the word "important" is not taken for `import` |
| JsValidator.InfiniteLoopOnlyInButtonScreen | server/src/engine/js/ActionButton.ts:29-30 | `while(true){}` passes the fighter screen but is caught by the button screen |
| JsValidator.WhileTrueCaughtByButtonScreen | server/src/engine/js/ActionButton.ts:29 | the button screen flags `while(true){}` as an infinite loop |
| JsValidator.PassesWithoutForbiddenLetters | server/src/engine/js/JSValidator.ts:10-21 | code lacking certain letters passes the whole fighter screen |
| JsValidator.RuleSilentWithoutLetters | server/src/engine/js/JSValidator.ts:10-21 | each fighter-screen pattern needs one of those letters |
| Matches.Match.constructor | server/src/core/Match.ts:17-30 | a new match is in preparation with no code, nobody ready and 30 seconds to go; both players are in a match |
| Matches.Match.SubmitCode | server/src/core/Match.ts:35-49 | the outcome and the new state are those of the submit function |
| Matches.Match.MarkReady | server/src/core/Match.ts:54-68 | the outcome and the new state are those of the ready function |
| Matches.Match.GetOpponent | server/src/core/Match.ts:87-94 | the other player for either player, nobody for anyone else |
| Matches.Match.AreBothReady | server/src/core/Match.ts:73-75 | both players have declared ready; see HandshakeMakesBothReady |
| Matches.Match.HasPlayer | server/src/core/Match.ts:80-82 | the id is one of the two players'; GetOpponent finds someone exactly for them |
| Matches.Match.StartCountdown | server/src/core/Match.ts:99-113 | the countdown interval is installed and nothing else changes |
| Matches.Match.StopCountdown | server/src/core/Match.ts:118-123 | the countdown interval is removed and nothing else changes |
| Matches.Match.Tick | server/src/core/Match.ts:104-111 | one second of the countdown: one second less, done and stopped at zero |
| Matches.Match.StartBattle | server/src/core/Match.ts:128-131 | the match is in battle with the countdown stopped |
| Matches.Match.Finish | server/src/core/Match.ts:136-141 | the match is finished, the countdown stopped, and both players are online again |
| Matches.SubmitCodeAccepted | server/src/core/Match.ts:35-49 | code is accepted exactly in preparation from one of the two players; it replaces only that player's code, and a refusal changes nothing |
| Matches.LaterSubmissionOverwrites | server/src/core/Match.ts:40-46 | a second submission replaces the first |
| Matches.MarkReadyAccepted | server/src/core/Match.ts:54-68 | readiness is accepted exactly in preparation from one of the two players and sets only that player's flag |
| Matches.HandshakeMakesBothReady | server/src/core/Match.ts:54-75 | both players declaring ready, in either order, makes both ready |
| Matches.ClosedAfterPreparation | server/src/core/Match.ts:35-141 | after the battle starts or the match finishes, submissions and readiness are refused and change nothing |
| Matches.OpponentInvolution | server/src/core/Match.ts:87-94 | the opponent's opponent is the player |
| Matches.CountdownRuns | server/src/core/Match.ts:104-111 | each tick takes one second off, and completion comes at exactly the last one |
| Matches.FreshCountdownCompletesAt30 | server/src/core/Match.ts:24-111 | a fresh countdown completes on its 30th tick, not before |
| MatchManagement.MatchManager.constructor | server/src/managers/MatchManager.ts:12-16 | a new manager has no matches |
| MatchManagement.MatchManager.AddMatch | server/src/managers/MatchManager.ts:21-50 | the match is stored under its id and its countdown starts |
| MatchManagement.MatchManager.SubmitCode | server/src/managers/MatchManager.ts:55-96 | unknown match and non-member are refused; otherwise the code is parsed and validated, and only accepted code is stored in the match |
| MatchManagement.SubmittedIffAcceptable | server/src/managers/MatchManager.ts:70-95 | code is reported submitted exactly when it parses and the strategy is acceptable; a rejection carries a non-empty list of errors |
| MatchManagement.MatchManager.MarkPlayerReady | server/src/managers/MatchManager.ts:101-136 | unknown match refused; otherwise the outcome and state are those of the ready step |
| MatchManagement.ReadyNeedsCode | server/src/managers/MatchManager.ts:113-120 | a member is acknowledged ready exactly when they have submitted non-empty code, and refusal changes nothing |
| MatchManagement.HandshakeStartsBattle | server/src/managers/MatchManager.ts:120-133 | when both players with code declare ready, the battle starts and the countdown stops; one alone does not start it |
| MatchManagement.ReadyAcknowledgedOutsidePreparation | server/src/managers/MatchManager.ts:113-135 | a player with code is told ready even after preparation, although nothing changes |
| MatchManagement.MatchManager.LeaveMatch | server/src/managers/MatchManager.ts:141-160 | a member leaving finishes the match, frees both players and removes the match; anyone else is refused and nothing changes |
| MatchManagement.MatchManager.StartMatch | server/src/managers/MatchManager.ts:165-181 | a stored match goes to battle with the countdown stopped |
| MatchManagement.MatchManager.HandleCountdownComplete | server/src/managers/MatchManager.ts:186-197 | a completed countdown starts the battle |
| MatchManagement.MatchManager.OnCountdownTick | server/src/core/Match.ts:104-111 | a tick of a stored match's countdown starts the battle when it completes |
| MatchManagement.CountdownStartsBattle | server/src/managers/MatchManager.ts:186-197 | after 30 ticks of a fresh match the battle starts even though nobody is ready |
| MatchManagement.MatchManager.GetMatchByPlayer | server/src/managers/MatchManager.ts:223-230 | the first match in insertion order that has the player |
| MatchManagement.FirstWithScan | server/src/managers/MatchManager.ts:223-230 | the scan finds a stored match with the player, or none exactly when no scanned match has the player |
| MatchManagement.FirstWithFound | server/src/managers/MatchManager.ts:223-230 | none exactly when no stored match has the player |
| MatchManagement.MatchManager.GetMatch | server/src/managers/MatchManager.ts:216-218 | the match stored under the id, none when absent |
| Players.Player.constructor | server/src/core/Player.ts:22-29 | a new player is online with zero stats and the given id, name and socket |
| Players.Player.PublicData | server/src/core/Player.ts:31-38 | the id, name, status and stats of the player; the lobby list is built from it |
| Rooms.Room.constructor | server/src/core/Room.ts:13-18 | a new room has no guest and no match, and expires five minutes after creation |
| Rooms.Room.AddGuest | server/src/core/Room.ts:37-43 | a guest is taken exactly when the room is not full |
| Rooms.Room.IsFull | server/src/core/Room.ts:23-25 | a non-empty guest id is seated; AddGuest is refused exactly then |
| Rooms.Room.IsExpired | server/src/core/Room.ts:30-32 | strictly after the expiry time; see RoomLifetime |
| Rooms.Room.HasPlayer | server/src/core/Room.ts:48-50 | the host or the seated guest; see HasPlayerExactly |
| Rooms.Room.TimeUntilExpiry | server/src/core/Room.ts:55-58 | the whole seconds left, 0 once expired |
| Rooms.HasPlayerExactly | server/src/core/Room.ts:48-50 | the host and the guest are the room's players |
| Rooms.RoomLifetime | server/src/core/Room.ts:11-58 | a room lives exactly 300 seconds and expires strictly after its expiry time |
| Rooms.RoomCodeIsUpperCase | server/src/core/Room.ts:77-84 | a generated code is unchanged by upper-casing |
| Rooms.LowerCaseCodeChanges | server/src/managers/MatchmakingManager.ts:159 | a code with a lower-case letter changes when upper-cased |
| Matchmaking.MatchmakingManager.constructor | server/src/managers/MatchmakingManager.ts:14-22 | the queue and the rooms are empty |
| Matchmaking.MatchmakingManager.JoinQueue | server/src/managers/MatchmakingManager.ts:27-50 | an unknown player or one already queued is refused; otherwise the player goes to the back of the queue, is marked queued, and learns their position |
| Matchmaking.JoinQueuePosition | server/src/managers/MatchmakingManager.ts:39-42 | the position reported is where the player now stands, and nobody is queued twice |
| Matchmaking.MatchmakingManager.LeaveQueue | server/src/managers/MatchmakingManager.ts:55-72 | succeeds exactly for a queued player, who leaves the queue and is online again |
| Matchmaking.LeaveQueueKeepsOthers | server/src/managers/MatchmakingManager.ts:55-72 | leaving removes that player and nobody else |
| Matchmaking.SpliceRemoves | server/src/managers/MatchmakingManager.ts:62 | splicing at the player's index removes that player |
| Matchmaking.RemovedAbsent | server/src/managers/MatchmakingManager.ts:55-72 | removing someone absent changes nothing |
| Matchmaking.IndexOf | server/src/managers/MatchmakingManager.ts:56 | the first index of the player, or -1 when absent |
| Matchmaking.MatchmakingManager.TryMatchPlayers | server/src/managers/MatchmakingManager.ts:77-113 | with two or more queued, the two at the front leave the queue and, when both are logged in, start a fresh match in that order |
| Matchmaking.PickIndex | server/src/managers/MatchmakingManager.ts:128-131 | the retry loop stops at the first free code, or at the last attempt |
| Matchmaking.MatchmakingManager.DrawCode | server/src/managers/MatchmakingManager.ts:126-131 | the code drawn is the one the retry loop stops at |
| Matchmaking.MatchmakingManager.CreateRoom | server/src/managers/MatchmakingManager.ts:118-143 | corrected, see Findings row 1: unknown host refused; the first free code among ten draws opens a room for the host; all ten taken is a failure. As written (`CreateRoomAsWrittenOf`, `CreateRoomWastesTenthCode`) a free tenth code still fails |
| Matchmaking.CreateRoomFindsFirstFreeCode | server/src/managers/MatchmakingManager.ts:128-135 | a room is created exactly when one of the ten codes is free, under the first free one |
| Matchmaking.CreateRoomAsWrittenUsesNine | server/src/managers/MatchmakingManager.ts:128-135 | as written, a room is created only when one of the first nine codes is free |
| Matchmaking.CreateRoomWastesTenthCode | server/src/managers/MatchmakingManager.ts:128-135 | as written, a free tenth code after nine taken ones is thrown away |
| Matchmaking.MatchmakingManager.JoinRoom | server/src/managers/MatchmakingManager.ts:148-210 | refusals follow the source's order of checks; an expired room is removed; success seats the guest, starts a fresh match between host and guest, and removes the room it found. Corrected, see Findings row 2: as written (`RoomsAfterJoinAsWritten`, `JoinRoomLeavesLowerCaseRoom`) the room is deleted under the code as typed |
| Matchmaking.JoinVerdictAccepts | server/src/managers/MatchmakingManager.ts:148-186 | joining succeeds exactly for a logged-in guest, a stored unexpired room that is not full, not the guest's own, whose host is logged in |
| Matchmaking.JoinRoomLeavesLowerCaseRoom | server/src/managers/MatchmakingManager.ts:159-207 | as written, a code typed in lower case leaves the room it found in place |
| Matchmaking.GetRoomByCode | server/src/managers/MatchmakingManager.ts:215-217 | a room looked up is stored under the upper-cased code; a generated code finds its room |
| Matchmaking.MatchmakingManager.GetRoom | server/src/managers/MatchmakingManager.ts:215-217 | the room under the upper-cased code, none when absent; see GetRoomByCode |
| Matchmaking.GetRoomAnyCasing | server/src/managers/MatchmakingManager.ts:215-217 | a code and its upper-cased form find the same room |
| Matchmaking.MatchmakingManager.CleanupExpiredRooms | server/src/managers/MatchmakingManager.ts:240-256 | the expired rooms are removed |
| Matchmaking.UnexpiredKeeps | server/src/managers/MatchmakingManager.ts:245-254 | exactly the unexpired rooms stay, unchanged |
| Rematch.RematchManager.constructor | server/src/managers/RematchManager.ts:12-19 | no pending requests, sockets or names |
| Rematch.RematchManager.RegisterPlayer | server/src/managers/RematchManager.ts:24-27 | the player's socket and name are recorded |
| Rematch.RematchManager.UnregisterPlayer | server/src/managers/RematchManager.ts:32-35 | the player's socket is forgotten |
| Rematch.RematchManager.SendRematchRequest | server/src/managers/RematchManager.ts:40-76 | refused when the same request is pending or the target is offline; otherwise it is pending for 30 seconds |
| Rematch.RematchManager.AcceptRematch | server/src/managers/RematchManager.ts:81-104 | refused when no such request is pending or it has expired; otherwise it is consumed |
| Rematch.RematchManager.DeclineRematch | server/src/managers/RematchManager.ts:109-121 | the request is no longer pending |
| Rematch.RematchManager.ExpireRematchRequest | server/src/managers/RematchManager.ts:126-139 | the request is no longer pending |
| Rematch.WellKeyedKept | server/src/managers/RematchManager.ts:54-61 | every pending request stays stored under its own key with a 30-second lifetime |
| Rematch.RequestLifetime | server/src/managers/RematchManager.ts:44-87 | a sent request cannot be sent again, and can be accepted exactly within its 30 seconds |
| Rematch.AcceptOnce | server/src/managers/RematchManager.ts:90 | an accepted request cannot be accepted again |
| Rematch.RequestKeyInjective | server/src/managers/RematchManager.ts:144-146 | for senders' ids of equal length, the key determines the pair |
| Rematch.RequestKeyCollision | server/src/managers/RematchManager.ts:144-146 | ids containing `-` can give two pairs the same key |
| Spectators.SpectatorManager.constructor | server/src/managers/SpectatorManager.ts:11-15 | nobody is watching |
| Spectators.SpectatorManager.JoinMatch | server/src/managers/SpectatorManager.ts:20-40 | joining a known match adds the socket to its watchers; an unknown match is refused |
| Spectators.SpectatorManager.LeaveMatch | server/src/managers/SpectatorManager.ts:45-65 | leaving a watched match removes the socket, and the entry once empty |
| Spectators.SpectatorManager.RemoveSpectator | server/src/managers/SpectatorManager.ts:70-81 | the socket stops watching every match, and emptied entries go |
| Spectators.VisitedStep | server/src/managers/SpectatorManager.ts:71-80 | each loop step removes the socket from one entry and drops it when emptied |
| Spectators.JoinIdempotent | server/src/managers/SpectatorManager.ts:28-32 | joining twice is joining once |
| Spectators.NoEmptySetsKept | server/src/managers/SpectatorManager.ts:45-81 | no match is left with an empty set of watchers |
| Spectators.DisconnectRemovesOnlySocket | server/src/managers/SpectatorManager.ts:70-81 | a disconnect removes that socket and no other watcher |
| Spectators.CountsFollowSets | server/src/managers/SpectatorManager.ts:86-88 | joining adds one watcher unless already there; leaving removes one if there |
| Spectators.SpectatorManager.GetSpectatorCount | server/src/managers/SpectatorManager.ts:86-88 | the number of sockets watching the match, 0 for an unwatched match; see CountsFollowSets |
| Lobby.LobbyManager.constructor | server/src/managers/LobbyManager.ts:11-15 | the lobby is empty |
| Lobby.LobbyManager.JoinLobby | server/src/managers/LobbyManager.ts:20-25 | the player's id is in the lobby |
| Lobby.LobbyManager.LeaveLobby | server/src/managers/LobbyManager.ts:30-34 | the player's id is no longer in the lobby |
| Lobby.LobbyManager.IsInLobby | server/src/managers/LobbyManager.ts:39-41 | the id is in the lobby: true after JoinLobby, false after LeaveLobby |
| Lobby.LobbyManager.GetLobbyState | server/src/managers/LobbyManager.ts:46-55 | the public data of the logged-in players in the lobby, in login order, and their count; see LobbyStateExact |
| Lobby.PublicList | server/src/managers/LobbyManager.ts:52 | one public entry per player, with its id, in order |
| Lobby.LobbyStateExact | server/src/managers/LobbyManager.ts:46-55 | the lobby state lists exactly the logged-in players in the lobby, each once, and counts them |
| Lobby.InLobbyIds | server/src/managers/LobbyManager.ts:49 | the filter keeps a player exactly when its id is in the lobby |
| Lobby.InLobbyDistinct | server/src/managers/LobbyManager.ts:49 | the filter repeats nobody |
| Lobby.InLobbySubset | server/src/managers/LobbyManager.ts:49 | the filter keeps only listed players |
| Lobby.InLobbyMember | server/src/managers/LobbyManager.ts:49 | whoever the filter keeps is listed and in the lobby |
| Lobby.InLobbyKeeps | server/src/managers/LobbyManager.ts:49 | a listed player in the lobby is kept |
| Lobby.PublicListIds | server/src/managers/LobbyManager.ts:52 | the public list has the same ids as the players |
| Lobby.IdsFollowOrder | server/src/managers/AuthManager.ts:122-124 | a player is listed exactly when its id is in the insertion order |
| Auth.ValidateUsername | server/src/managers/AuthManager.ts:20-28 | accepted exactly for 3 to 20 ASCII letters and digits; a wrong length is reported before a wrong character |
| Auth.UsernameBoundaries | server/src/managers/AuthManager.ts:20-28 | three alphanumerics pass, 21 characters fail on length, an underscore fails on characters |
| Auth.AlphanumericRun | server/src/managers/AuthManager.ts:24 | the run scanned is made of letters and digits and stops at the first other character |
| Auth.AuthManager.constructor | server/src/managers/AuthManager.ts:11-14 | no players and no sockets |
| Auth.AuthManager.Login | server/src/managers/AuthManager.ts:33-55 | a bad username is refused and changes nothing; otherwise a new online player is stored under its id and its socket |
| Auth.AuthManager.Logout | server/src/managers/AuthManager.ts:78-86 | a known player is removed with its socket entry; an unknown one is refused |
| Auth.AuthManager.UpdateSocketId | server/src/managers/AuthManager.ts:105-117 | a known player's socket moves to the new id in the player and in the socket index |
| Auth.LookupsSound | server/src/managers/AuthManager.ts:91-100 | a lookup by id finds exactly the stored players, under their id; a lookup by socket finds a player on that socket |
| Auth.AuthManager.GetPlayer | server/src/managers/AuthManager.ts:91-93 | the player stored under the id; see LookupsSound |
| Auth.AuthManager.GetPlayerBySocketId | server/src/managers/AuthManager.ts:98-100 | the player indexed under the socket id; see LookupsSound |
| Auth.AuthManager.AllPlayers | server/src/managers/AuthManager.ts:122-124 | the stored players in login order; see AllPlayersInOrder |
| Auth.AllPlayersInOrder | server/src/managers/AuthManager.ts:122-124 | all players are listed once each, in login order |
| Auth.PlayersOf | server/src/managers/AuthManager.ts:122-124 | every listed player is stored |
| Auth.PlayersOfListsStored | server/src/managers/AuthManager.ts:122-124 | the list follows the key order exactly |
| Auth.PlayersOfIndexed | server/src/managers/AuthManager.ts:122-124 | the list follows the key order exactly, for any stored keys |
| KeyOrder.InsertedOrders | server/src/managers/AuthManager.ts:44-45 | setting a key keeps the insertion order a faithful list of the map's keys |
| KeyOrder.RemovedOrders | server/src/managers/AuthManager.ts:81-82 | deleting a key keeps the insertion order a faithful list of the map's keys |
| KeyOrder.RemovedMembers | server/src/managers/MatchManager.ts:155 | removal takes away exactly the removed key |
| StatsStore.StatsStore.constructor | client/src/stores/statsStore.ts:33-43 | the stats start at zero with no history |
| StatsStore.StatsStore.RecordMatchResult | client/src/stores/statsStore.ts:50-77 | the stats become those of the recording function |
| StatsStore.Recorded | client/src/stores/statsStore.ts:50-77 | the stats after one more match; see RecordedEffect, RecordedHistory and RecordedConsistent |
| StatsStore.StatsStore.ResetStats | client/src/stores/statsStore.ts:85-87 | the stats are back at their initial values |
| StatsStore.RecordedEffect | client/src/stores/statsStore.ts:54-70 | one more match, exactly one of wins, losses and draws up by one, damage totals up by the match's figures, the streak extended, reset or kept, the longest streak raised to it |
| StatsStore.RecordedHistory | client/src/stores/statsStore.ts:73 | the newest entry comes first and the history keeps at most 50 |
| StatsStore.Newest | client/src/stores/statsStore.ts:73 | the first 50 entries, or all when fewer |
| StatsStore.RecordedConsistent | client/src/stores/statsStore.ts:50-77 | recording keeps the totals adding up and the longest streak at least the current one |
| StatsStore.InitialConsistent | client/src/stores/statsStore.ts:33-43 | the initial stats are consistent |
| StatsStore.WinsInARow | client/src/stores/statsStore.ts:55-60 | n wins in a row lengthen the streak by n and the longest streak to at least that |
| StatsStore.WinRate | client/src/stores/statsStore.ts:79-83 | 0 without matches; otherwise the percentage of wins, rounded to the nearest whole number |
| StatsStore.StatsStore.GetWinRate | client/src/stores/statsStore.ts:79-83 | the win rate of the stored stats, as WinRate states |
| StatsStore.WinRateIsPercentage | client/src/stores/statsStore.ts:79-83 | the rate is between 0 and 100, 100 when every match was won, 0 without wins |
| AchievementsStore.WithUnlocked | client/src/stores/achievementsStore.ts:70-78 | unlocking keeps the list's length |
| AchievementsStore.CountUnlocked | client/src/stores/achievementsStore.ts:85-87 | the count is at most the number of achievements |
| AchievementsStore.AchievementsStore.constructor | client/src/stores/achievementsStore.ts:20-68 | the store starts with the six locked achievements |
| AchievementsStore.AchievementsStore.UnlockAchievement | client/src/stores/achievementsStore.ts:70-78 | the list becomes the unlocked list |
| AchievementsStore.AchievementsStore.IsUnlocked | client/src/stores/achievementsStore.ts:80-83 | the first achievement with the id is unlocked, false for an unknown id; see UnknownId and UnlockedAfterUnlock |
| AchievementsStore.AchievementsStore.GetUnlockedCount | client/src/stores/achievementsStore.ts:85-87 | how many achievements are unlocked; see CountUnlocked and CountAfterUnlock |
| AchievementsStore.UnlockTouchesOnlyTarget | client/src/stores/achievementsStore.ts:72-75 | only a locked achievement with the id changes, to unlocked at now; ids and order stay |
| AchievementsStore.UnlockIdempotent | client/src/stores/achievementsStore.ts:72-75 | unlocking again changes nothing and keeps the first unlock time |
| AchievementsStore.UnknownId | client/src/stores/achievementsStore.ts:71-83 | an unknown id changes nothing and reads as locked |
| AchievementsStore.UnlockedAfterUnlock | client/src/stores/achievementsStore.ts:70-83 | after unlocking a known id it reads as unlocked |
| AchievementsStore.UnlockLeavesOthers | client/src/stores/achievementsStore.ts:72-75 | unlocking one id leaves how every other reads |
| AchievementsStore.UnlockKeepsUnlocked | client/src/stores/achievementsStore.ts:72-75 | unlocking never locks anything |
| AchievementsStore.UnlockedPresent | client/src/stores/achievementsStore.ts:80-83 | an id that reads as unlocked is in the list |
| AchievementsStore.CountAfterUnlock | client/src/stores/achievementsStore.ts:85-87 | with distinct ids, the count grows by one exactly when a locked achievement with the id existed |
| AchievementsStore.InitialAchievementsLocked | client/src/stores/achievementsStore.ts:20-63 | six achievements, none unlocked |
| AchievementsStore.InitialIdsDistinct | client/src/stores/achievementsStore.ts:20-63 | the six ids differ |
| Achievements.CheckRule | client/src/utils/achievements.ts:9-12 | one guarded block: unlock and collect the id when the threshold is met and it is still locked |
| Achievements.CheckAchievements | client/src/utils/achievements.ts:4-45 | the collected ids and the store are those of the six blocks in order |
| Achievements.Step | client/src/utils/achievements.ts:9-12 | one guarded block on values; see StepKeepsDue |
| Achievements.Checked | client/src/utils/achievements.ts:8-44 | the blocks in order on values; see CheckedReturnsDue and CheckedUnlocksEarned |
| Achievements.CheckedReturnsDue | client/src/utils/achievements.ts:8-44 | the ids returned are exactly the rules, in fixed order, whose threshold holds and whose achievement was locked before the call |
| Achievements.CheckedUnlocksEarned | client/src/utils/achievements.ts:8-42 | afterwards every achievement whose threshold holds is unlocked |
| Achievements.CheckedNeverLocks | client/src/utils/achievements.ts:8-42 | the call keeps the ids, keeps unlocked entries as they were, and locks nothing |
| Achievements.SecondCheckFindsNothing | client/src/utils/achievements.ts:9-39 | calling again with the same stats returns nothing |
| Achievements.NothingDue | client/src/utils/achievements.ts:9-39 | when every met threshold is already unlocked, nothing is due |
| Achievements.StepKeepsDue | client/src/utils/achievements.ts:9-12 | one block moves its id, if due, from the due list to the collected list |
| Achievements.DueUnchanged | client/src/utils/achievements.ts:8-42 | unlocking an id no remaining rule names leaves what is due unchanged |
| Achievements.RulesDistinct | client/src/utils/achievements.ts:9-42 | the six blocks unlock six different achievements |
| Achievements.InitialListsRules | client/src/utils/achievements.ts:9-42 | every block's achievement is in the store's initial list |
| Achievements.EarnedNest | client/src/utils/achievements.ts:15-25 | with consistent stats, a five-win streak implies a three-win streak, which implies a first win |
| Achievements.OnlyEarnedUnlock | client/src/utils/achievements.ts:8-42 | an achievement unlocked afterwards was unlocked before or its threshold holds |
| Achievements.NestPairAfterCheck | client/src/utils/achievements.ts:8-42 | when one rule's threshold implies another's, the implication between their unlocked achievements survives a check |
| Achievements.NestAfterCheck | client/src/utils/achievements.ts:15-25 | with consistent stats, if five wins in a row imply three in a row and three imply a first win among the unlocked achievements before the call, the same holds after |
| Achievements.InitialNested | client/src/stores/achievementsStore.ts:20-63 | the initial list, all locked, is nested in that sense |
| Achievements.AchievementById | client/src/utils/achievements.ts:47-50 | found exactly for a listed id, and the entry found has that id |
| Text.Trim | server/src/engine/js/ActionButton.ts:64 | the trimmed text neither starts nor ends with white space |
| Text.TrimEmptyIffBlank | server/src/engine/casl/CASLValidator.ts:121 | trimming leaves nothing exactly when the text is all white space |
| Text.TrimKeepsPlain | server/src/engine/casl/CASLParser.ts:175 | text without surrounding white space trims to itself |
| Text.TrimSurroundedByBlanks | server/src/engine/js/ActionButton.ts:64 | trimming removes only leading and trailing white space |
| Text.ToUpper | server/src/engine/js/ActionButton.ts:65 | an ASCII lower-case letter becomes the upper-case letter 32 code points below it; every other character stays |
| Text.UpperCase | server/src/managers/MatchmakingManager.ts:159 | each character is upper-cased on its own, in place |
| Text.UpperCaseIdempotent | server/src/managers/MatchmakingManager.ts:215-217 | upper-casing an upper-cased code changes nothing |
| Text.IndexFrom | server/src/engine/casl/CASLParser.ts:76 | the index found holds the character, or there is none |

## Left out

- Socket.IO: every emit to a player, a room or a spectator, `socket.join` and `socket.leave`, the broadcast helpers (`broadcastCountdown`, `broadcastQueueUpdate`, `broadcastLobbyUpdate`), and all console logging are not modelled. They only send messages.
- JWT tokens: the token made by `login` and the `validateToken` check wrap a foreign library. `Auth.AuthManager.Login` returns the player without the token.
- Clocks and timers are not modelled as such. `Date.now()` is a `now` parameter, and each timer is a step method the caller invokes:
  - the countdown interval is `Match.Tick` and `MatchManager.OnCountdownTick`;
  - the room clean-up interval is `CleanupExpiredRooms`;
  - the rematch timeout is `ExpireRematchRequest`.
- Randomness: match ids, player ids, custom action ids and room codes are parameters, and `generateCode` draws are a sequence of codes. Only the property that a generated code is six upper-case letters or digits is kept.
- Floating point:
  - distances are compared as squares instead of taking `Math.sqrt`;
  - CASL numbers are exact decimals instead of doubles;
  - `Math.round` is stated as a bound on exact rationals.
- StatsStore.WinRate: does not model how JavaScript rounds a double that falls exactly on .5, because the bound is stated on exact rationals.
- The catch-all "Parse error" path of `CASLParser.parse` is not modelled. It catches exceptions the scanners model cannot throw.
- JavaScript parsing inside `JSValidator` uses acorn. It is a foreign library, so its outcome (a program body or a syntax error) is an input of `JsValidator.Validate`.
- The user JavaScript sandbox (`JSExecutor`) is not part of this model.
- `toPublicData` of Match and Room is not modelled; it only copies fields. `Player.toPublicData` is modelled as `Players.Player.PublicData`, with all four fields, and the lobby's public list uses it.
- The clean-up methods (`MatchManager.cleanup`, `Match.cleanup`, `SpectatorManager.cleanup`, `MatchmakingManager.cleanup`) are not modelled. They only clear timers and empty tables.
- `getLobbyPlayers`, `getQueueSize` and `isInQueue` are plain reads of a set or the queue and are not modelled separately.
- `SpectatorManager.getActiveMatches` calls `getAllMatches` and `getMatchBattleState`, which `MatchManager` does not define, so it is not modelled.
- `MatchmakingManager` calls `authManager.getPlayerById`, which `AuthManager` does not define. The model uses `getPlayer`, the lookup by id that exists.
- Player status other than what the modelled operations set is not modelled.
- The players' own `stats` field is kept at zero, since no core operation updates it.
- `ActionManager.TriggerAction`: buttons are values, so the aliasing of a returned button object with the stored one is not modelled.
- Text.ToUpper: only ASCII letters are upper-cased. JavaScript's `toUpperCase` also maps other letters, for instance `ı` to `I`, `ſ` to `S` and `ß` to `SS`. It is applied to room codes as typed (server/src/managers/MatchmakingManager.ts:159, 215-217), so in the source `joinRoom("ıNVITE")` finds room `INVITE`, and the model does not.
- Text.UpperCase: keeps the length, while JavaScript's `toUpperCase` can lengthen a text (`ß` becomes `SS`). Codes with such letters are upper-cased differently from the source.
- Auth.ValidateUsername: lengths are counted in characters (code points), while JavaScript's `.length` counts UTF-16 units. For `a😀` the source sees length 3, passes the length check and reports "Username must be alphanumeric only"; the model reports the wrong length.
- CaslValidator.Validator.ValidateStrategyName: the 50-character warning counts code points, not UTF-16 units, so a name with characters outside the Basic Multilingual Plane can be warned about in the source and not in the model. Such names get an error for their characters either way.
- Persistence of the client stores in the browser's local storage is not modelled.
- Rematch.RequestKeyInjective: proved only for sender ids of equal length, because ids containing `-` can collide, as `RequestKeyCollision` shows. Player ids `player_<time>_<random>` contain no `-`.

## Findings

| source | as written | input that shows it | evidently intended | confidence | as-written member | corrected member |
|---|---|---|---|---|---|---|
| server/src/managers/MatchmakingManager.ts:128-135 | the retry loop stops after ten draws, then fails whenever `attempts >= 10`, even when the tenth code drawn is free | nine drawn codes already in use, then a free tenth code: `createRoom` reports "Failed to generate unique room code" | fail only when every one of the ten codes is taken, else open the room under the first free code | not executed | Matchmaking.CreateRoomWastesTenthCode | Matchmaking.CreateRoomFindsFirstFreeCode |
| server/src/managers/MatchmakingManager.ts:159, 166, 207 | the room is looked up under the upper-cased code but deleted under the code as typed | join with code `abc123` while room `ABC123` exists: the match is created and `ABC123` stays in the table (and an expired `ABC123` is never deleted on join) | delete the room under the key it was found under | not executed | Matchmaking.JoinRoomLeavesLowerCaseRoom | Matchmaking.MatchmakingManager.JoinRoom |
