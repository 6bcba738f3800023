/** The parser for submitted action-button code: it names the button after
    the first declared function, lists the actions the code calls, and
    screens the code for forbidden constructs. */
module ActionButtonParser {
  import opened Wrappers
  import opened Text
  import opened Actions
  import opened Patterns

  datatype ParsedAction = ParsedAction(name: string, actions: seq<ActionType>)

  /** `{ valid: true }` or `{ valid: false, errors }`. */
  datatype CodeCheck = Valid | Invalid(errors: seq<string>)

  /** Calls that name each action, in table order. */
  const ActionKeywords: seq<(Pattern, ActionType)> := [
    ([CallOf("attack")], Attack),
    ([CallOf("moveForward"), CallOf("approach")], Approach),
    ([CallOf("moveBackward"), CallOf("retreat")], Retreat),
    ([CallOf("defend"), CallOf("block")], Block)
  ]

  const InfiniteLoopMessage := "Infinite loops are not allowed"
  const MissingFunctionMessage := "Code must define a named function"

  /** The constructs submitted code may not contain, with their messages. */
  const ForbiddenPatterns: seq<ScreenRule> := [
    ScreenRule([CallOf("eval")], "Use of eval() is not allowed"),
    ScreenRule([CallOf("Function")], "Use of Function() constructor is not allowed"),
    ScreenRule([CallOf("setTimeout")], "Use of setTimeout() is not allowed"),
    ScreenRule([CallOf("setInterval")], "Use of setInterval() is not allowed"),
    ScreenRule([WordOf("process")], "Access to process is not allowed"),
    ScreenRule([CallOf("require")], "Use of require() is not allowed"),
    ScreenRule([WordOf("import")], "Use of import is not allowed"),
    ScreenRule([WordOf("__dirname"), WordOf("__filename")], "Access to Node.js path globals is not allowed"),
    ScreenRule([WordOf("global")], "Access to global is not allowed"),
    ScreenRule([WordOf("Buffer")], "Access to Buffer is not allowed"),
    ScreenRule([Tokens(["while", "(", "true", ")"])], InfiniteLoopMessage),
    ScreenRule([Tokens(["for", "(", ";", ";", ")"])], InfiniteLoopMessage)
  ]

  // ---------------------------------------------------------------------
  // Function names: /function\s+([A-Za-z_$][A-Za-z0-9_$]*)\s*\(/
  // ---------------------------------------------------------------------

  predicate IsIdentStart(c: char) { IsAsciiLetter(c) || c == '_' || c == '$' }

  predicate IsIdentChar(c: char) { IsIdentStart(c) || IsDigit(c) }

  predicate IsIdentifier(s: string) {
    s != [] && IsIdentStart(s[0]) && forall k | 0 <= k < |s| :: IsIdentChar(s[k])
  }

  /** End of the maximal run of identifier characters from `i`. */
  function IdentEnd(s: string, i: nat): (e: nat)
    requires i <= |s|
    ensures i <= e <= |s|
    ensures e == |s| || !IsIdentChar(s[e])
    ensures forall k | i <= k < e :: IsIdentChar(s[k])
    decreases |s| - i
  {
    if i < |s| && IsIdentChar(s[i]) then IdentEnd(s, i + 1) else i
  }

  /** The name the regular expression captures when its match starts at
      `i`. The white space after `function` and the identifier are both
      maximal: giving any of them back would put a space at the start of the
      identifier or an identifier character before the parenthesis. */
  function FunctionNameAt(s: string, i: nat): (r: Option<string>)
    requires i <= |s|
    ensures r.Some? ==> IsIdentifier(r.value)
  {
    if !HasAt(s, i, "function") then None
    else
      var k := SpaceEnd(s, i + 8);
      if k == i + 8 || k == |s| || !IsIdentStart(s[k]) then None
      else
        var e := IdentEnd(s, k + 1);
        var m := SpaceEnd(s, e);
        if m < |s| && s[m] == '(' then Some(s[k..e]) else None
  }

  /** The leftmost position from `i` on where a match starts. */
  function FirstFunctionFrom(s: string, i: nat): (r: Option<nat>)
    requires i <= |s|
    ensures r.Some? ==> i <= r.value <= |s| && FunctionNameAt(s, r.value).Some?
    ensures forall k | i <= k <= |s| && (r.None? || k < r.value) :: FunctionNameAt(s, k).None?
    decreases |s| - i
  {
    if FunctionNameAt(s, i).Some? then Some(i)
    else if i == |s| then None
    else FirstFunctionFrom(s, i + 1)
  }

  /** `extractFunctionName`: the identifier of the first declared function,
      or the empty string when there is none. */
  function ExtractFunctionName(code: string): (name: string)
    ensures name == [] <==> forall k | 0 <= k <= |code| :: FunctionNameAt(code, k).None?
    ensures name != [] ==> IsIdentifier(name)
    ensures name != [] ==>
              exists i | 0 <= i <= |code| ::
                && FunctionNameAt(code, i) == Some(name)
                && forall k | 0 <= k < i :: FunctionNameAt(code, k).None?
  {
    match FirstFunctionFrom(code, 0)
    case None => []
    case Some(i) => FunctionNameAt(code, i).value
  }

  /** A declaration at the start of the code is the one found. */
  lemma DeclaredNameFound(id: string, rest: string)
    requires IsIdentifier(id)
    ensures ExtractFunctionName("function " + id + "(" + rest) == id
  {
    var s := "function " + id + "(" + rest;
    assert s[..8] == "function";
    assert s[8] == ' ';
    assert s[9] == id[0];
    SpaceEndIs(s, 8, 9);
    assert forall k | 9 <= k < 9 + |id| :: s[k] == id[k - 9];
    assert s[9 + |id|] == '(';
    IdentEndIs(s, 10, 9 + |id|);
    assert s[9..9 + |id|] == id;
    assert FunctionNameAt(s, 0) == Some(id);
  }

  lemma IdentEndIs(s: string, i: nat, e: nat)
    requires i <= e <= |s|
    requires forall k | i <= k < e :: IsIdentChar(s[k])
    requires e == |s| || !IsIdentChar(s[e])
    ensures IdentEnd(s, i) == e
    decreases e - i
  {
    if i < e {
      IdentEndIs(s, i + 1, e);
    }
  }

  // ---------------------------------------------------------------------
  // Display names
  // ---------------------------------------------------------------------

  /** `replace(/([A-Z])/g, ' $1')`: a space before every capital letter. */
  function SpaceCapitals(s: string): (r: string)
    ensures |r| >= |s|
  {
    if s == [] then []
    else (if IsUpper(s[0]) then [' ', s[0]] else [s[0]]) + SpaceCapitals(s[1..])
  }

  /** `humanizeName`: "Custom Action" for the empty name; otherwise spaced
      before capitals, trimmed, and with its first character upper-cased. */
  function HumanizeName(functionName: string): (r: string)
    ensures functionName == [] ==> r == "Custom Action"
  {
    if functionName == [] then "Custom Action"
    else
      var spaced := Trim(SpaceCapitals(functionName));
      if spaced == [] then [] else [ToUpper(spaced[0])] + spaced[1..]
  }

  /** The text with all white space removed. */
  function Unspaced(s: string): string {
    if s == [] then [] else (if IsSpace(s[0]) then [] else [s[0]]) + Unspaced(s[1..])
  }

  lemma {:induction false} UnspacedAppend(a: string, b: string)
    ensures Unspaced(a + b) == Unspaced(a) + Unspaced(b)
    decreases |a|
  {
    if a == [] {
      assert a + b == b;
    } else {
      assert (a + b)[1..] == a[1..] + b;
      UnspacedAppend(a[1..], b);
    }
  }

  lemma {:induction false} UnspacedBlank(s: string)
    requires IsBlank(s)
    ensures Unspaced(s) == []
    decreases |s|
  {
    if s != [] {
      UnspacedBlank(s[1..]);
    }
  }

  /** Spacing out the capitals only adds white space. */
  lemma {:induction false} SpaceCapitalsUnspaced(s: string)
    requires forall k | 0 <= k < |s| :: !IsSpace(s[k])
    ensures Unspaced(SpaceCapitals(s)) == s
    decreases |s|
  {
    if s != [] {
      var head := if IsUpper(s[0]) then [' ', s[0]] else [s[0]];
      UnspacedAppend(head, SpaceCapitals(s[1..]));
      SpaceCapitalsUnspaced(s[1..]);
      if IsUpper(s[0]) {
        assert Unspaced(head) == [s[0]] by {
          assert head[1..] == [s[0]];
        }
      }
    }
  }

  /** Trimming only removes white space. */
  lemma TrimUnspaced(s: string)
    ensures Unspaced(Trim(s)) == Unspaced(s)
  {
    var b := SpaceEnd(s, 0);
    var e := TrimmedEnd(s, b, |s|);
    TrimSurroundedByBlanks(s);
    UnspacedAround(s[..b], Trim(s), s[e..]);
  }

  /** White space around a text is not kept. */
  lemma UnspacedAround(front: string, middle: string, back: string)
    requires IsBlank(front) && IsBlank(back)
    ensures Unspaced(front + middle + back) == Unspaced(middle)
  {
    UnspacedAppend(front + middle, back);
    UnspacedAppend(front, middle);
    UnspacedBlank(front);
    UnspacedBlank(back);
  }

  /** Humanizing a name without white space keeps its characters, in order,
      with the first one upper-cased; only spaces are added, never at
      either end. */
  lemma HumanizeKeepsName(fn: string)
    requires fn != [] && forall k | 0 <= k < |fn| :: !IsSpace(fn[k])
    ensures var r := HumanizeName(fn);
            Unspaced(r) == [ToUpper(fn[0])] + fn[1..]
            && r != [] && !IsSpace(r[0]) && !IsSpace(r[|r| - 1])
  {
    var spaced := SpaceCapitals(fn);
    var t := Trim(spaced);
    SpaceCapitalsUnspaced(fn);
    TrimUnspaced(spaced);
    assert Unspaced(t) == fn;
    assert Unspaced([]) == [];
    assert t != [];
    assert t == [t[0]] + t[1..];
    UnspacedAppend([t[0]], t[1..]);
    assert Unspaced([t[0]]) == [t[0]];
    assert fn == [t[0]] + Unspaced(t[1..]);
    var r := [ToUpper(t[0])] + t[1..];
    assert r == [ToUpper(t[0])] + t[1..];
    UnspacedAppend([ToUpper(t[0])], t[1..]);
    assert !IsSpace(ToUpper(t[0]));
    assert Unspaced([ToUpper(t[0])]) == [ToUpper(t[0])];
    assert fn[1..] == Unspaced(t[1..]);
  }

  lemma {:induction false} SpaceCapitalsAppend(a: string, b: string)
    ensures SpaceCapitals(a + b) == SpaceCapitals(a) + SpaceCapitals(b)
    decreases |a|
  {
    if a == [] {
      assert a + b == b;
    } else {
      assert (a + b)[1..] == a[1..] + b;
      SpaceCapitalsAppend(a[1..], b);
    }
  }

  /** Text without capitals is left as it is. */
  lemma {:induction false} SpaceCapitalsPlain(s: string)
    requires forall k | 0 <= k < |s| :: !IsUpper(s[k])
    ensures SpaceCapitals(s) == s
    decreases |s|
  {
    if s != [] {
      SpaceCapitalsPlain(s[1..]);
    }
  }

  /** Humanizing a non-empty name upper-cases the first character of its
      spaced and trimmed form. */
  lemma HumanizeOf(fn: string, t: string)
    requires fn != [] && Trim(SpaceCapitals(fn)) == t && t != []
    ensures HumanizeName(fn) == [ToUpper(t[0])] + t[1..]
  {
  }

  /** Two camel-case words, the second capitalised, come apart at the
      capital: "customAttack" becomes "Custom Attack". */
  lemma HumanizeTwoWords(w1: string, w2: string)
    requires w1 != [] && !IsSpace(w1[0]) && forall k | 0 <= k < |w1| :: !IsUpper(w1[k])
    requires w2 != [] && IsUpper(w2[0]) && forall k | 1 <= k < |w2| :: !IsUpper(w2[k]) && !IsSpace(w2[k])
    ensures HumanizeName(w1 + w2) == [ToUpper(w1[0])] + (w1[1..] + ([' '] + w2))
  {
    SpaceBeforeSecondWord(w1, w2);
    var u := w1[1..] + ([' '] + w2);
    var t := [w1[0]] + u;
    assert w1 + ([' '] + w2) == t by {
      assert w1 == [w1[0]] + w1[1..];
    }
    assert t[|t| - 1] == w2[|w2| - 1];
    TrimKeepsPlain(t);
    HumanizeOf(w1 + w2, t);
    assert t[1..] == u;
  }

  lemma SpaceBeforeSecondWord(w1: string, w2: string)
    requires w1 != [] && forall k | 0 <= k < |w1| :: !IsUpper(w1[k])
    requires w2 != [] && IsUpper(w2[0]) && forall k | 1 <= k < |w2| :: !IsUpper(w2[k])
    ensures SpaceCapitals(w1 + w2) == w1 + ([' '] + w2)
  {
    SpaceCapitalsCapital(w2);
    SpaceCapitalsPlain(w1);
    SpaceCapitalsAppend(w1, w2);
  }

  /** A capital followed by no other capital gets one space in front. */
  lemma SpaceCapitalsCapital(w: string)
    requires w != [] && IsUpper(w[0]) && forall k | 1 <= k < |w| :: !IsUpper(w[k])
    ensures SpaceCapitals(w) == [' '] + w
  {
    var rest := w[1..];
    SpaceCapitalsPlain(rest);
    assert SpaceCapitals(w) == [' ', w[0]] + SpaceCapitals(rest);
    ConsAppendText(w);
  }

  lemma ConsAppendText(w: string)
    requires w != []
    ensures [' ', w[0]] + w[1..] == [' '] + w
  {
    assert w == [w[0]] + w[1..];
  }

  /** "custom", the name `parse` falls back to, becomes "Custom". */
  lemma HumanizeCustom(fn: string)
    requires fn == "custom"
    ensures HumanizeName(fn) == "Custom"
  {
    assert Trim(SpaceCapitals(fn)) == fn by {
      SpaceCapitalsPlain(fn);
      TrimKeepsPlain(fn);
    }
    HumanizeOf(fn, fn);
    assert ToUpper(fn[0]) == 'C';
  }

  // ---------------------------------------------------------------------
  // Actions named by the code
  // ---------------------------------------------------------------------

  /** The actions the loop over the first entries of the keyword table
      collects: each matching entry's action, unless already present. */
  function Recognised(code: string, table: seq<(Pattern, ActionType)>): seq<ActionType> {
    if table == [] then []
    else
      var found := Recognised(code, table[..|table| - 1]);
      var last := table[|table| - 1];
      if Test(code, last.0) && last.1 !in found then found + [last.1] else found
  }

  /** `extractActions`: the recognised actions, or ATTACK when none is. */
  function ExtractedActions(code: string): seq<ActionType> {
    var found := Recognised(code, ActionKeywords);
    if found == [] then [Attack] else found
  }

  /** Whether the code calls the action of keyword-table entry `k`. */
  predicate Calls(code: string, k: nat)
    requires k < |ActionKeywords|
  {
    Test(code, ActionKeywords[k].0)
  }

  /** The actions come in the table's order (ATTACK, APPROACH, RETREAT,
      BLOCK), each at most once, whatever order the calls have in the code;
      with no call recognised the list is exactly [ATTACK]. */
  lemma ExtractedActionsInTableOrder(code: string)
    ensures ExtractedActions(code) ==
              if !Calls(code, 0) && !Calls(code, 1) && !Calls(code, 2) && !Calls(code, 3) then [Attack]
              else (if Calls(code, 0) then [Attack] else [])
                   + (if Calls(code, 1) then [Approach] else [])
                   + (if Calls(code, 2) then [Retreat] else [])
                   + (if Calls(code, 3) then [Block] else [])
  {
    RecognisedAll(code);
    var f := Recognised(code, ActionKeywords);
    assert f == [] <==> !Calls(code, 0) && !Calls(code, 1) && !Calls(code, 2) && !Calls(code, 3);
  }

  /** The action of entry `k` when the code calls it, else nothing. */
  function CalledAction(code: string, k: nat): seq<ActionType>
    requires k < |ActionKeywords|
  {
    if Calls(code, k) then [ActionKeywords[k].1] else []
  }

  lemma RecognisedFirst(code: string)
    ensures Recognised(code, ActionKeywords[..1]) == CalledAction(code, 0)
  {
    assert ActionKeywords[..0] == [];
    RecognisedStep(code, ActionKeywords, 0);
  }

  lemma RecognisedTwo(code: string)
    ensures Recognised(code, ActionKeywords[..2]) == CalledAction(code, 0) + CalledAction(code, 1)
  {
    RecognisedFirst(code);
    RecognisedStep(code, ActionKeywords, 1);
  }

  lemma RecognisedThree(code: string)
    ensures Recognised(code, ActionKeywords[..3])
            == CalledAction(code, 0) + CalledAction(code, 1) + CalledAction(code, 2)
  {
    RecognisedTwo(code);
    RecognisedStep(code, ActionKeywords, 2);
  }

  lemma RecognisedAll(code: string)
    ensures Recognised(code, ActionKeywords)
            == CalledAction(code, 0) + CalledAction(code, 1) + CalledAction(code, 2) + CalledAction(code, 3)
  {
    RecognisedThree(code);
    RecognisedStep(code, ActionKeywords, 3);
    assert ActionKeywords[..4] == ActionKeywords;
  }

  /** One more table entry: its action is added when the code matches it
      and it is not there yet. */
  lemma RecognisedStep(code: string, table: seq<(Pattern, ActionType)>, n: nat)
    requires n < |table|
    ensures var found := Recognised(code, table[..n]);
            Recognised(code, table[..n + 1])
            == if Test(code, table[n].0) && table[n].1 !in found then found + [table[n].1] else found
  {
    assert table[..n + 1][..n] == table[..n];
  }

  /** The list is never empty and never repeats an action. */
  lemma ExtractedActionsDistinct(code: string)
    ensures ExtractedActions(code) != []
    ensures forall i, j | 0 <= i < j < |ExtractedActions(code)| :: ExtractedActions(code)[i] != ExtractedActions(code)[j]
  {
    ExtractedActionsInTableOrder(code);
  }

  /** `extractActions`, the loop over the keyword table. */
  method ExtractActions(code: string) returns (found: seq<ActionType>)
    ensures found == ExtractedActions(code)
  {
    found := [];
    var i := 0;
    while i < |ActionKeywords|
      invariant 0 <= i <= |ActionKeywords|
      invariant found == Recognised(code, ActionKeywords[..i])
    {
      assert ActionKeywords[..i + 1][..i] == ActionKeywords[..i];
      var (pattern, action) := ActionKeywords[i];
      if Test(code, pattern) && action !in found {
        found := found + [action];
      }
      i := i + 1;
    }
    assert ActionKeywords[..i] == ActionKeywords;
    if found == [] {
      found := [Attack];
    }
  }

  // ---------------------------------------------------------------------
  // parse and validateCode
  // ---------------------------------------------------------------------

  /** `parse`: the humanized function name ("Custom" when the code declares
      none) and the actions the code calls. */
  method Parse(code: string) returns (r: ParsedAction)
    ensures r.actions == ExtractedActions(code) && r.actions != []
    ensures ExtractFunctionName(code) == [] ==> r.name == "Custom"
    ensures ExtractFunctionName(code) != [] ==> r.name == HumanizeName(ExtractFunctionName(code))
  {
    var functionName := ExtractFunctionName(code);
    var name := HumanizeName(if functionName == [] then "custom" else functionName);
    HumanizeCustom("custom");
    var actions := ExtractActions(code);
    ExtractedActionsDistinct(code);
    r := ParsedAction(name, actions);
  }

  /** The errors `validateCode` collects: one message per matching table
      entry, in table order, then the missing-function message. */
  function CodeErrors(code: string): seq<string> {
    Screen(code, ForbiddenPatterns) + (if ExtractFunctionName(code) == [] then [MissingFunctionMessage] else [])
  }

  /** The code is valid exactly when no forbidden construct occurs and it
      declares a named function. */
  lemma CodeErrorsEmptyIff(code: string)
    ensures CodeErrors(code) == [] <==>
              (forall k | 0 <= k < |ForbiddenPatterns| :: !Test(code, ForbiddenPatterns[k].pattern))
              && ExtractFunctionName(code) != []
  {
    ScreenEmptyIff(code, ForbiddenPatterns);
  }

  /** `validateCode`. */
  method ValidateCode(code: string) returns (r: CodeCheck)
    ensures r.Valid? <==> CodeErrors(code) == []
    ensures r.Invalid? ==> r.errors == CodeErrors(code)
  {
    var errors := [];
    var i := 0;
    while i < |ForbiddenPatterns|
      invariant 0 <= i <= |ForbiddenPatterns|
      invariant errors == Screen(code, ForbiddenPatterns[..i])
    {
      ScreenStep(code, ForbiddenPatterns, i);
      if Test(code, ForbiddenPatterns[i].pattern) {
        errors := errors + [ForbiddenPatterns[i].message];
      }
      i := i + 1;
    }
    assert ForbiddenPatterns[..i] == ForbiddenPatterns;
    if ExtractFunctionName(code) == [] {
      errors := errors + [MissingFunctionMessage];
    }
    r := if errors == [] then Valid else Invalid(errors);
  }
}
