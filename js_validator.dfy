/** The validator for submitted JavaScript fighters: a text screen for
    forbidden constructs, then a structural check that the program declares
    a class `Fighter` with an `execute` method. The JavaScript parser the
    structural check runs on is outside the model: its outcome (the
    top-level statements, or a syntax error) is an input. */
module JsValidator {
  import opened Wrappers
  import opened Text
  import opened Patterns
  import ActionButtonParser

  /** The constructs submitted programs may not contain. Unlike the action
      button screen, this table has no infinite-loop entries. */
  const ForbiddenPatterns: seq<ScreenRule> := [
    ScreenRule([CallOf("eval")], "Use of eval() is not allowed"),
    ScreenRule([CallOf("Function")], "Use of Function() constructor is not allowed"),
    ScreenRule([CallOf("setTimeout")], "Use of setTimeout() is not allowed"),
    ScreenRule([CallOf("setInterval")], "Use of setInterval() is not allowed"),
    ScreenRule([WordOf("process")], "Access to process is not allowed"),
    ScreenRule([CallOf("require")], "Use of require() is not allowed"),
    ScreenRule([WordOf("import")], "Use of import is not allowed"),
    ScreenRule([WordOf("__dirname"), WordOf("__filename")], "Access to Node.js path globals is not allowed"),
    ScreenRule([WordOf("global")], "Access to global is not allowed"),
    ScreenRule([WordOf("Buffer")], "Access to Buffer is not allowed")
  ]

  const NoFighterMessage := "Code must define a class named Fighter"
  const NoExecuteMessage := "Fighter class must have an execute() method"
  const SyntaxErrorPrefix := "Syntax error"

  datatype MethodKind = Method | Constructor | Getter | Setter

  /** A class body member: a method definition with its kind and, when its
      key is a plain identifier, that identifier; or any other member. */
  datatype ClassMember = MethodDefinition(kind: MethodKind, keyName: Option<string>) | OtherMember

  /** A top-level statement: a class declaration (its name, if any, and its
      members) or anything else. */
  datatype Statement = ClassDeclaration(name: Option<string>, members: seq<ClassMember>) | OtherStatement

  /** What the parser gives: the program's top-level statements, or a
      syntax error, with its message and line when the error carries
      them. */
  datatype ParseOutcome =
    | Parsed(body: seq<Statement>)
    | SyntaxError(detail: Option<(string, Option<int>)>)

  datatype JsError = JsError(message: string, line: Option<int>)

  datatype ValidationResult = ValidationResult(valid: bool, errors: seq<JsError>)

  /** The error for a syntax error. */
  function SyntaxErrorOf(detail: Option<(string, Option<int>)>): (e: JsError)
    ensures SyntaxErrorPrefix <= e.message
  {
    match detail
    case Some((message, line)) => JsError(SyntaxErrorPrefix + ": " + message, line)
    case None => JsError(SyntaxErrorPrefix + " in code", None)
  }

  predicate IsFighterClass(s: Statement) {
    s.ClassDeclaration? && s.name == Some("Fighter")
  }

  /** The first top-level class named `Fighter`, if any. */
  function FindFighter(body: seq<Statement>): (r: Option<Statement>)
    ensures r.Some? <==> exists k | 0 <= k < |body| :: IsFighterClass(body[k])
    ensures r.Some? ==> IsFighterClass(r.value)
  {
    if body == [] then None
    else if IsFighterClass(body[0]) then Some(body[0])
    else
      var r := FindFighter(body[1..]);
      assert forall k | 1 <= k < |body| :: body[k] == body[1..][k - 1];
      r
  }

  predicate IsExecuteMethod(m: ClassMember) {
    m.MethodDefinition? && m.kind == Method && m.keyName == Some("execute")
  }

  /** The structural errors of a parsed program. */
  function StructureErrors(body: seq<Statement>): seq<JsError> {
    match FindFighter(body)
    case None => [JsError(NoFighterMessage, None)]
    case Some(c) =>
      if exists k | 0 <= k < |c.members| :: IsExecuteMethod(c.members[k]) then []
      else [JsError(NoExecuteMessage, None)]
  }

  /** The screen's messages as errors without a line. */
  function AsErrors(msgs: seq<string>): (es: seq<JsError>)
    ensures |es| == |msgs|
    ensures forall k | 0 <= k < |msgs| :: es[k] == JsError(msgs[k], None)
  {
    if msgs == [] then [] else AsErrors(msgs[..|msgs| - 1]) + [JsError(msgs[|msgs| - 1], None)]
  }

  lemma AsErrorsAppend(msgs: seq<string>, m: string)
    ensures AsErrors(msgs + [m]) == AsErrors(msgs) + [JsError(m, None)]
  {
    assert (msgs + [m])[..|msgs|] == msgs;
  }

  /** `validate`. */
  method Validate(code: string, parsed: ParseOutcome) returns (r: ValidationResult)
    ensures r.valid <==> r.errors == []
    ensures Screen(code, ForbiddenPatterns) != [] ==>
              r.errors == AsErrors(Screen(code, ForbiddenPatterns))
    ensures Screen(code, ForbiddenPatterns) == [] && parsed.SyntaxError? ==>
              r.errors == [SyntaxErrorOf(parsed.detail)]
    ensures Screen(code, ForbiddenPatterns) == [] && parsed.Parsed? ==>
              r.errors == StructureErrors(parsed.body)
  {
    var errors: seq<JsError> := [];
    var i := 0;
    while i < |ForbiddenPatterns|
      invariant 0 <= i <= |ForbiddenPatterns|
      invariant errors == AsErrors(Screen(code, ForbiddenPatterns[..i]))
    {
      ScreenStep(code, ForbiddenPatterns, i);
      if Test(code, ForbiddenPatterns[i].pattern) {
        AsErrorsAppend(Screen(code, ForbiddenPatterns[..i]), ForbiddenPatterns[i].message);
        errors := errors + [JsError(ForbiddenPatterns[i].message, None)];
      }
      i := i + 1;
    }
    assert ForbiddenPatterns[..i] == ForbiddenPatterns;
    if errors != [] {
      return ValidationResult(false, errors);
    }
    assert Screen(code, ForbiddenPatterns) == [];
    match parsed
    case SyntaxError(detail) =>
      return ValidationResult(false, [SyntaxErrorOf(detail)]);
    case Parsed(body) =>
      errors := StructureErrors(body);
      r := ValidationResult(errors == [], errors);
  }

  /** A program passes the structural check exactly when some top-level
      class named `Fighter` exists and the first one has a plain method
      called `execute`; otherwise exactly one message says which part is
      missing. */
  lemma StructureErrorsIff(body: seq<Statement>)
    ensures |StructureErrors(body)| <= 1
    ensures StructureErrors(body) == [] <==>
              FindFighter(body).Some?
              && exists k | 0 <= k < |FindFighter(body).value.members| ::
                   IsExecuteMethod(FindFighter(body).value.members[k])
    ensures (forall k | 0 <= k < |body| :: !IsFighterClass(body[k])) ==>
              StructureErrors(body) == [JsError(NoFighterMessage, None)]
  {
  }

  /** This table is the first ten entries of the action button table: the
      button screen reports what this screen reports, then the
      infinite-loop message for each of `while(true)` and `for(;;)` that
      occurs. */
  lemma ButtonScreenAddsLoops(code: string)
    ensures ForbiddenPatterns == ActionButtonParser.ForbiddenPatterns[..10]
    ensures Screen(code, ActionButtonParser.ForbiddenPatterns) ==
              Screen(code, ForbiddenPatterns)
              + (if Test(code, ActionButtonParser.ForbiddenPatterns[10].pattern) then [ActionButtonParser.InfiniteLoopMessage] else [])
              + (if Test(code, ActionButtonParser.ForbiddenPatterns[11].pattern) then [ActionButtonParser.InfiniteLoopMessage] else [])
  {
    var ab := ActionButtonParser.ForbiddenPatterns;
    assert ForbiddenPatterns == ab[..10];
    assert ab[..11][..10] == ab[..10] && ab[..11][10] == ab[10];
    assert ab[..11] == ab[..|ab| - 1];
  }

  /** Word boundaries: "processing" is not `process`. */
  lemma ProcessingPasses()
    ensures !Test("processing", ForbiddenPatterns[4].pattern)
  {
    WordInsideLongerWord("process", "ing");
    assert "process" + "ing" == "processing";
  }

  /** Word boundaries: "important" is not `import`. */
  lemma ImportantPasses()
    ensures !Test("important", ForbiddenPatterns[6].pattern)
  {
    WordInsideLongerWord("import", "ant");
    assert "import" + "ant" == "important";
  }

  /** `while(true)` passes this screen but not the action button screen. */
  lemma InfiniteLoopOnlyInButtonScreen(code: string)
    requires code == "while(true){}"
    ensures Screen(code, ForbiddenPatterns) == []
    ensures ActionButtonParser.InfiniteLoopMessage in Screen(code, ActionButtonParser.ForbiddenPatterns)
  {
    WhileTrueLacksLetters(code);
    PassesWithoutForbiddenLetters(code);
    WhileTrueCaughtByButtonScreen(code);
  }

  lemma WhileTrueLacksLetters(code: string)
    requires code == "while(true){}"
    ensures LacksForbiddenLetters(code)
  {
    var used := {'w', 'h', 'i', 'l', 'e', '(', 't', 'r', 'u', ')', '{', '}'};
    forall k | 0 <= k < |code|
      ensures code[k] in used
    {
    }
    DrawnFrom(code, used, {'v', 'F', 's', 'p', 'q', 'm', '_', 'g', 'B'});
  }

  /** Characters outside the set a text is drawn from do not occur in it. */
  lemma DrawnFrom(code: string, used: set<char>, others: set<char>)
    requires forall k | 0 <= k < |code| :: code[k] in used
    requires used !! others
    ensures forall c | c in others :: c !in code
  {
  }

  lemma WhileTrueCaughtByButtonScreen(code: string)
    requires code == "while(true){}"
    ensures ActionButtonParser.InfiniteLoopMessage in Screen(code, ActionButtonParser.ForbiddenPatterns)
  {
    var ab := ActionButtonParser.ForbiddenPatterns;
    assert Test(code, ab[10].pattern) by {
      WhileTrueTokens(code);
      assert MatchesAt(code, ab[10].pattern[0], 0);
    }
    ButtonScreenAddsLoops(code);
  }

  /** No entry of this table matches a text lacking those letters: each
      name has a character the text lacks. */
  lemma PassesWithoutForbiddenLetters(code: string)
    requires LacksForbiddenLetters(code)
    ensures Screen(code, ForbiddenPatterns) == []
  {
    forall k | 0 <= k < |ForbiddenPatterns|
      ensures !Test(code, ForbiddenPatterns[k].pattern)
    {
      RuleSilentWithoutLetters(code, k);
    }

    ScreenEmptyIff(code, ForbiddenPatterns);
  }

  /** Text without any of the letters v, F, s, p, q, m, g, B and without an
      underscore contains none of the forbidden names. */
  predicate LacksForbiddenLetters(code: string) {
    'v' !in code && 'F' !in code && 's' !in code && 'p' !in code && 'q' !in code
    && 'm' !in code && '_' !in code && 'g' !in code && 'B' !in code
  }

  lemma RuleSilentWithoutLetters(code: string, k: nat)
    requires LacksForbiddenLetters(code) && k < |ForbiddenPatterns|
    ensures !Test(code, ForbiddenPatterns[k].pattern)
  {
    var p := ForbiddenPatterns[k].pattern;
    if k == 0 {
      NameNeverMatches(code, p[0], 'v');
    } else if k == 1 {
      NameNeverMatches(code, p[0], 'F');
    } else if k == 2 || k == 3 {
      NameNeverMatches(code, p[0], 's');
    } else if k == 4 {
      NameNeverMatches(code, p[0], 'p');
    } else if k == 5 {
      NameNeverMatches(code, p[0], 'q');
    } else if k == 6 {
      NameNeverMatches(code, p[0], 'm');
    } else if k == 7 {
      NameNeverMatches(code, p[0], '_');
      NameNeverMatches(code, p[1], '_');
    } else if k == 8 {
      NameNeverMatches(code, p[0], 'g');
    } else {
      NameNeverMatches(code, p[0], 'B');
    }
  }

  lemma WhileTrueTokens(code: string)
    requires code == "while(true){}"
    ensures TokensAt(code, ["while", "(", "true", ")"], 0)
  {
    var ts := ["while", "(", "true", ")"];
    assert |code| == 13;
    assert code[..5] == "while";
    assert code[5..6] == "(";
    assert code[6..10] == "true";
    assert code[10..11] == [code[10]] == ")";
    SpaceEndIs(code, 5, 5);
    SpaceEndIs(code, 6, 6);
    SpaceEndIs(code, 10, 10);
    assert ts[1..] == ["(", "true", ")"] && ts[2..] == ["true", ")"] && ts[3..] == [")"];
    assert TokensAt(code, ts[3..], 10);
    assert TokensAt(code, ts[2..], 6);
    assert TokensAt(code, ts[1..], 5);
  }
}
