/** Parsing CASL source text into a strategy.

    The parser is driven by regular expressions. Each one is modelled by a
    scanner that accepts exactly the text the expression matches at a given
    position, with the capture the expression returns. Leftmost-match search
    is a separate function that tries the positions in order. Where
    backtracking could in principle pick a different split, the comment on
    the scanner says why it cannot, or which split it picks. */
module CaslParser {
  import opened Wrappers
  import opened Text
  import opened CaslTypes

  /** Why one rule could not be parsed. */
  datatype RuleFault =
    | MissingWhenOrDo
    | InvalidConditionSyntax(text: string)
    | MissingActionAfterDo

  datatype ParseError =
    | MissingStrategy
    | MissingDefault
    | RuleError(rule: string, fault: RuleFault)

  /** `strategy` is present exactly when parsing succeeded. */
  datatype ParseResult = ParseResult(success: bool, strategy: Option<Strategy>, errors: seq<ParseError>)

  /** The text the parser reports for a rule fault. */
  function FaultMessage(f: RuleFault): string {
    match f
    case MissingWhenOrDo => "Missing WHEN or DO clause"
    case InvalidConditionSyntax(text) => "Invalid condition syntax: \"" + text + "\""
    case MissingActionAfterDo => "Missing action after DO"
  }

  /** The text the parser reports for an error. */
  function Message(e: ParseError): string {
    match e
    case MissingStrategy => "Missing STRATEGY declaration"
    case MissingDefault => "Missing DEFAULT action"
    case RuleError(rule, fault) => "Error parsing rule \"" + rule + "\": " + FaultMessage(fault)
  }

  // ---------------------------------------------------------------------
  // Comments

  /** `//` at index `i`. */
  predicate LineCommentAt(s: string, i: nat) {
    i + 1 < |s| && s[i] == '/' && s[i + 1] == '/'
  }

  /** No `//` is left anywhere in `s`. */
  predicate NoLineComment(s: string) {
    forall k | 0 <= k < |s| :: !LineCommentAt(s, k)
  }

  /** Global replace of `//[^\n]*` by nothing: from each `//` up to, but not
      including, the next line feed (or the end) is dropped. */
  function StripLineComments(s: string): (r: string)
    ensures |r| <= |s|
    ensures NoLineComment(r)
    ensures s != [] && !LineCommentAt(s, 0) ==> r != [] && r[0] == s[0]
    decreases |s|
  {
    if s == [] then []
    else if LineCommentAt(s, 0) then
      var e := IndexFrom(s, '\n', 2);
      if e == -1 then [] else StripLineComments(s[e..])
    else
      var rest := StripLineComments(s[1..]);
      assert |s| >= 2 && s[0] == '/' ==> rest != [] && rest[0] == s[1];
      assert forall k | 1 <= k < |rest| + 1 :: LineCommentAt([s[0]] + rest, k) == LineCommentAt(rest, k - 1);
      [s[0]] + rest
  }

  // First index `k >= i` where a block comment's closing star-slash starts,
  // or -1.
  function CloseFrom(s: string, i: nat): (r: int)
    requires i <= |s|
    ensures r == -1 || (i <= r && r + 1 < |s| && s[r] == '*' && s[r + 1] == '/')
    decreases |s| - i
  {
    if i + 1 >= |s| then -1
    else if s[i] == '*' && s[i + 1] == '/' then i
    else CloseFrom(s, i + 1)
  }

  // Global replace of the lazy block-comment expression by nothing: an
  // opening slash-star is dropped up to and including the first closing
  // star-slash that starts after it; an opening with no closing after it is
  // kept.
  function StripBlockComments(s: string): (r: string)
    ensures |r| <= |s|
    decreases |s|
  {
    if s == [] then []
    else if |s| >= 2 && s[0] == '/' && s[1] == '*' && CloseFrom(s, 2) != -1 then
      StripBlockComments(s[CloseFrom(s, 2) + 2..])
    else [s[0]] + StripBlockComments(s[1..])
  }

  /** Line comments go first, then block comments. */
  function CleanCode(code: string): (r: string)
    ensures |r| <= |code|
  {
    StripBlockComments(StripLineComments(code))
  }

  /** Text before which no `//` starts is kept by the line-comment strip. */
  lemma {:induction false} LinePrefixKept(a: string, t: string)
    requires forall k | 0 <= k < |a| :: !LineCommentAt(a + t, k)
    ensures StripLineComments(a + t) == a + StripLineComments(t)
    decreases |a|
  {
    if a == [] {
      assert a + t == t;
    } else {
      var s := a + t;
      var tail := a[1..] + t;
      assert s == [a[0]] + tail;
      assert !LineCommentAt(s, 0);
      assert s[1..] == tail;
      forall k | 0 <= k < |a| - 1
        ensures !LineCommentAt(tail, k)
      {
        assert !LineCommentAt(s, k + 1);
      }
      LinePrefixKept(a[1..], t);
      ConsAppend(a, StripLineComments(t));
    }
  }

  lemma ConsAppend(a: string, b: string)
    requires a != []
    ensures a + b == [a[0]] + (a[1..] + b)
  {
  }

  /** A line comment goes up to its line feed, which stays. */
  lemma LineCommentDropped(a: string, c: string, b: string)
    requires '/' !in a && '\n' !in c
    ensures StripLineComments(a + "//" + c + "\n" + b) == StripLineComments(a + "\n" + b)
  {
    var u := "//" + c + "\n" + b;
    var v := "\n" + b;
    CommentToLineFeed(c, b);
    SlashFreePrefix(a, u);
    SlashFreePrefix(a, v);
    LinePrefixKept(a, u);
    LinePrefixKept(a, v);
    Regroup(a, "//", c, "\n", b);
    AppendAssoc(a, "\n", b);
  }

  lemma AppendAssoc<T>(a: seq<T>, y: seq<T>, z: seq<T>)
    ensures a + y + z == a + (y + z)
  {
  }

  lemma AppendEmpty<T>(a: seq<T>)
    ensures a + [] == a
  {
  }

  lemma Regroup<T>(a: seq<T>, w: seq<T>, x: seq<T>, y: seq<T>, z: seq<T>)
    ensures a + w + x + y + z == a + (w + x + y + z)
  {
  }

  /** A comment at the start goes up to the first line feed. */
  lemma CommentToLineFeed(c: string, b: string)
    requires '\n' !in c
    ensures StripLineComments("//" + c + "\n" + b) == StripLineComments("\n" + b)
  {
    var u := "//" + c + "\n" + b;
    forall k | 2 <= k < 2 + |c|
      ensures u[k] != '\n'
    {
      assert u[k] == c[k - 2];
    }
    IndexFromIs(u, '\n', 2, 2 + |c|);
    assert u[2 + |c|..] == "\n" + b;
    assert LineCommentAt(u, 0);
  }

  /** No `//` starts inside a prefix without a slash. */
  lemma SlashFreePrefix(a: string, u: string)
    requires '/' !in a
    ensures forall k | 0 <= k < |a| :: !LineCommentAt(a + u, k)
  {
    forall k | 0 <= k < |a|
      ensures !LineCommentAt(a + u, k)
    {
      assert (a + u)[k] == a[k];
    }
  }

  /** Text without a slash is kept by the block-comment strip. */
  lemma {:induction false} BlockPrefixKept(a: string, t: string)
    requires '/' !in a
    ensures StripBlockComments(a + t) == a + StripBlockComments(t)
    decreases |a|
  {
    if a != [] {
      var s := a + t;
      assert s[0] == a[0] && a[0] in a && s[1..] == a[1..] + t;
      assert StripBlockComments(s) == [s[0]] + StripBlockComments(s[1..]);
      BlockPrefixKept(a[1..], t);
      assert a + StripBlockComments(t) == [a[0]] + (a[1..] + StripBlockComments(t));
    } else {
      assert a + t == t && a + StripBlockComments(t) == StripBlockComments(t);
    }
  }

  /** `CloseFrom` finds a closing star-slash with none before it. */
  lemma CloseFromIs(s: string, i: nat, e: nat)
    requires i <= e && e + 1 < |s| && s[e] == '*' && s[e + 1] == '/'
    requires forall k | i <= k < e :: !(s[k] == '*' && s[k + 1] == '/')
    ensures CloseFrom(s, i) == e
    decreases e - i
  {
    if i < e {
      CloseFromIs(s, i + 1, e);
    }
  }

  /** A line comment does not change what the parser reads, except that
      its line ends there. */
  lemma LineCommentIgnored(a: string, c: string, b: string)
    requires '/' !in a && '\n' !in c
    ensures CleanCode(a + "//" + c + "\n" + b) == CleanCode(a + "\n" + b)
  {
    LineCommentDropped(a, c, b);
  }

  /** The line-comment strip keeps a closed block comment without slashes
      inside, and what comes before it. */
  lemma ClosedBlockLineKept(a: string, c: string, b: string)
    requires '/' !in a && '/' !in c
    requires b == [] || b[0] != '/'
    ensures StripLineComments(a + ("/*" + c + "*/") + b) == a + ("/*" + c + "*/") + StripLineComments(b)
  {
    var u := "/*" + c + "*/";
    var s := (a + u) + b;
    forall k | 0 <= k < |a + u|
      ensures !LineCommentAt(s, k)
    {
      if k < |a| {
        assert s[k] == a[k];
      } else if 2 <= k - |a| < 2 + |c| {
        assert s[k] == c[k - |a| - 2];
      } else if k - |a| == 3 + |c| && b != [] {
        assert s[k + 1] == b[0];
      }
    }
    LinePrefixKept(a + u, b);
  }

  /** The block-comment strip drops a closed comment without stars inside. */
  /** No closing star-slash occurs inside `c`. */
  predicate NoCloser(c: string) {
    forall k | 0 <= k < |c| - 1 :: !(c[k] == '*' && c[k + 1] == '/')
  }

  lemma ClosedBlockDropped(c: string, r: string)
    requires NoCloser(c)
    ensures StripBlockComments("/*" + c + "*/" + r) == StripBlockComments(r)
  {
    var ur := "/*" + c + "*/" + r;
    forall k | 2 <= k < 2 + |c|
      ensures !(ur[k] == '*' && ur[k + 1] == '/')
    {
      if k + 1 < 2 + |c| {
        assert ur[k] == c[k - 2] && ur[k + 1] == c[k - 1];
      } else {
        assert ur[k + 1] == '*';
      }
    }
    CloseFromIs(ur, 2, 2 + |c|);
    assert ur[2 + |c| + 2..] == r;
  }

  /** Text without a slash is kept by the line-comment strip. */
  lemma SlashFreeLineKept(a: string, t: string)
    requires '/' !in a
    ensures StripLineComments(a + t) == a + StripLineComments(t)
  {
    forall k | 0 <= k < |a|
      ensures !LineCommentAt(a + t, k)
    {
      assert (a + t)[k] == a[k];
    }
    LinePrefixKept(a, t);
  }

  /** A closed block comment does not change what the parser reads. */
  lemma BlockCommentIgnored(a: string, c: string, b: string)
    requires '/' !in a && '/' !in c
    requires b == [] || b[0] != '/'
    ensures CleanCode(a + "/*" + c + "*/" + b) == CleanCode(a + b)
  {
    var u := "/*" + c + "*/";
    assert NoCloser(c) by {
      forall k | 0 <= k < |c| - 1
        ensures !(c[k] == '*' && c[k + 1] == '/')
      {
        assert c[k + 1] in c;
      }
    }
    var r := StripLineComments(b);
    calc {
      CleanCode(a + "/*" + c + "*/" + b);
      { assert a + "/*" + c + "*/" + b == a + u + b; }
      StripBlockComments(StripLineComments(a + u + b));
      { ClosedBlockLineKept(a, c, b); assert a + u + r == a + (u + r); }
      StripBlockComments(a + (u + r));
      { BlockPrefixKept(a, u + r); }
      a + StripBlockComments(u + r);
      { ClosedBlockDropped(c, r); }
      a + StripBlockComments(r);
      { BlockPrefixKept(a, r); }
      StripBlockComments(a + r);
      { SlashFreeLineKept(a, b); }
      CleanCode(a + b);
    }
  }

  // ---------------------------------------------------------------------
  // STRATEGY, DEFAULT and DO

  /** `KEYWORD\s+(\w+)` matched at `i`: the captured word. Backtracking
      cannot help: a shorter `\s+` leaves white space where `\w` is needed. */
  function KeywordWordAt(s: string, i: nat, kw: string): (r: Option<string>)
    ensures r.Some? ==> |r.value| > 0 && forall k | 0 <= k < |r.value| :: IsWordChar(r.value[k])
  {
    if HasAt(s, i, kw) && i + |kw| < |s| && IsSpace(s[i + |kw|]) then
      var k := SpaceEnd(s, i + |kw|);
      var w := WordEnd(s, k);
      WordRun(s, k);
      if k < w then Some(s[k..w]) else None
    else None
  }

  /** The leftmost position from `i` to `n` at which `at` matches, and what
      it captures there: the first match a regular expression reports. */
  function FirstMatch(at: nat -> Option<string>, i: nat, n: nat): (r: Option<string>)
    requires i <= n
    ensures r.None? <==> forall k | i <= k <= n :: at(k).None?
    ensures r.Some? ==>
              exists k | i <= k <= n ::
                && at(k) == r
                && forall j | i <= j < k :: at(j).None?
    decreases n - i
  {
    if at(i).Some? then at(i)
    else if i == n then None
    else FirstMatch(at, i + 1, n)
  }

  /** The leftmost match of `KEYWORD\s+(\w+)` at or after `i`. */
  function FindKeywordWord(s: string, i: nat, kw: string): (r: Option<string>)
    requires i <= |s|
    ensures r.None? <==> forall k | i <= k <= |s| :: KeywordWordAt(s, k, kw).None?
    ensures r.Some? ==>
              exists k | i <= k <= |s| ::
                && KeywordWordAt(s, k, kw) == r
                && forall j | i <= j < k :: KeywordWordAt(s, j, kw).None?
  {
    var at := (k: nat) => KeywordWordAt(s, k, kw);
    assert forall k: nat :: at(k) == KeywordWordAt(s, k, kw);
    FirstMatch(at, i, |s|)
  }

  /** `STRATEGY\s+(\w+)\s*\{` matched at `i`: the strategy name. A shorter
      `\w+` would leave a word character where `\s*\{` is needed. */
  function StrategyAt(s: string, i: nat): (r: Option<string>)
    ensures r.Some? ==> r == KeywordWordAt(s, i, "STRATEGY")
  {
    if HasAt(s, i, "STRATEGY") && i + 8 < |s| && IsSpace(s[i + 8]) then
      var k := SpaceEnd(s, i + 8);
      var w := WordEnd(s, k);
      var m := SpaceEnd(s, w);
      if k < w && m < |s| && s[m] == '{' then Some(s[k..w]) else None
    else None
  }

  /** The leftmost STRATEGY declaration at or after `i`. */
  function FindStrategy(s: string, i: nat): (r: Option<string>)
    requires i <= |s|
    ensures r.None? <==> forall k | i <= k <= |s| :: StrategyAt(s, k).None?
    ensures r.Some? ==>
              exists k | i <= k <= |s| ::
                && StrategyAt(s, k) == r
                && forall j | i <= j < k :: StrategyAt(s, j).None?
  {
    var at := (k: nat) => StrategyAt(s, k);
    assert forall k: nat :: at(k) == StrategyAt(s, k);
    FirstMatch(at, i, |s|)
  }

  // ---------------------------------------------------------------------
  // RULE blocks

  /** One match of the rule expression: the quoted name, the body between
      the braces, and where the match ends. */
  datatype RuleText = RuleText(name: string, body: string, end: nat)

  /** `RULE\s+"([^"]+)"\s*\{([^}]*(?:\{[^}]*\}[^}]*)*)\}` matched at `i`.
      The greedy `[^}]*` runs to the first `}` after the opening brace, the
      group then matches zero times and `\}` takes that brace, so the body
      ends at the first `}`; without a `}` nothing matches. The name runs to
      the next quote and must not be empty. */
  function RuleAt(s: string, i: nat): (r: Option<RuleText>)
    ensures r.Some? ==> i < r.value.end <= |s|
    ensures r.Some? ==> |r.value.name| > 0 && '"' !in r.value.name && '}' !in r.value.body
  {
    if HasAt(s, i, "RULE") && i + 4 < |s| && IsSpace(s[i + 4]) then RuleNameFrom(s, SpaceEnd(s, i + 4))
    else None
  }

  /** The rest of a rule match from its opening quote at `k`: the name up to
      the next quote, then white space and the body in braces. */
  function RuleNameFrom(s: string, k: nat): (r: Option<RuleText>)
    requires k <= |s|
    ensures r.Some? ==> k < r.value.end <= |s|
    ensures r.Some? ==> |r.value.name| > 0 && '"' !in r.value.name && '}' !in r.value.body
  {
    if k < |s| && s[k] == '"' then
      var q := IndexFrom(s, '"', k + 1);
      if q > k + 1 then
        IndexFromSkips(s, '"', k + 1);
        RuleBodyFrom(s, s[k + 1..q], SpaceEnd(s, q + 1))
      else None
    else None
  }

  /** The body of a rule match from its opening brace at `m`, up to the
      first closing brace. */
  function RuleBodyFrom(s: string, name: string, m: nat): (r: Option<RuleText>)
    requires m <= |s|
    ensures r.Some? ==> m < r.value.end <= |s| && r.value.name == name && '}' !in r.value.body
  {
    if m < |s| && s[m] == '{' then
      var c := IndexFrom(s, '}', m + 1);
      IndexFromSkips(s, '}', m + 1);
      if c != -1 then Some(RuleText(name, s[m + 1..c], c + 1)) else None
    else None
  }

  /** The leftmost rule match at or after `i` (one step of the global
      `exec` loop). */
  function FindRule(s: string, i: nat): (r: Option<RuleText>)
    requires i <= |s|
    ensures r.Some? ==> i < r.value.end <= |s|
    decreases |s| - i
  {
    if RuleAt(s, i).Some? then RuleAt(s, i)
    else if i == |s| then None
    else FindRule(s, i + 1)
  }

  /** Every rule match from `i` on, in order of appearance, each search
      resuming where the previous match ended. */
  function RuleTexts(s: string, i: nat): seq<RuleText>
    requires i <= |s|
    decreases |s| - i
  {
    match FindRule(s, i)
    case None => []
    case Some(m) => [m] + RuleTexts(s, m.end)
  }

  // ---------------------------------------------------------------------
  // WHEN ... DO

  /** `\s+DO\s+` matches at `p`. Only the maximal white-space run can be
      followed by `DO`, so the match does not depend on backtracking. */
  predicate DoSeparatorAt(s: string, p: nat) {
    p < |s| && IsSpace(s[p])
    && var q := SpaceEnd(s, p);
       HasAt(s, q, "DO") && q + 2 < |s| && IsSpace(s[q + 2])
  }

  /** The first `p' >= p` where `\s+DO\s+` matches, or -1. */
  function DoSeparatorFrom(s: string, p: nat): (r: int)
    requires p <= |s|
    ensures r == -1 || (p <= r < |s| && DoSeparatorAt(s, r))
    decreases |s| - p
  {
    if p == |s| then -1 else if DoSeparatorAt(s, p) then p else DoSeparatorFrom(s, p + 1)
  }

  /** `WHEN\s+([\s\S]*?)\s+DO\s+` matched at `i`: the condition text. With
      the greedy `\s+` at its longest, the lazy capture stops at the first
      `\s+DO\s+` after the white space. Only when there is none does the
      engine shorten the `\s+`, which helps exactly when the run has two or
      more characters and `DO` and white space follow it: the capture is
      then empty. */
  function WhenAt(s: string, i: nat): (r: Option<string>)
  {
    if HasAt(s, i, "WHEN") && i + 4 < |s| && IsSpace(s[i + 4]) then
      var e := SpaceEnd(s, i + 4);
      var p := DoSeparatorFrom(s, e);
      if p != -1 then Some(s[e..p])
      else if e >= i + 6 && DoSeparatorAt(s, e - 1) then Some([])
      else None
    else None
  }

  function FindWhen(s: string, i: nat): (r: Option<string>)
    requires i <= |s|
    decreases |s| - i
  {
    if WhenAt(s, i).Some? then WhenAt(s, i)
    else if i == |s| then None
    else FindWhen(s, i + 1)
  }

  // ---------------------------------------------------------------------
  // Conditions

  /** `[\w.]`. */
  predicate IsFieldChar(c: char) { IsWordChar(c) || c == '.' }

  function FieldEnd(s: string, i: nat): (e: nat)
    requires i <= |s|
    ensures i <= e <= |s|
    ensures e == |s| || !IsFieldChar(s[e])
    decreases |s| - i
  {
    if i < |s| && IsFieldChar(s[i]) then FieldEnd(s, i + 1) else i
  }

  lemma FieldRun(s: string, i: nat)
    requires i <= |s|
    ensures forall k | i <= k < FieldEnd(s, i) :: IsFieldChar(s[k])
    decreases |s| - i
  {
    if i < |s| && IsFieldChar(s[i]) {
      FieldRun(s, i + 1);
    }
  }

  lemma FieldEndIs(s: string, i: nat, e: nat)
    requires i <= e <= |s|
    requires forall k | i <= k < e :: IsFieldChar(s[k])
    requires e == |s| || !IsFieldChar(s[e])
    ensures FieldEnd(s, i) == e
    decreases e - i
  {
    if i < e {
      FieldEndIs(s, i + 1, e);
    }
  }

  /** `(<=|>=|==|!=|<|>)` at `i`, alternatives tried in that order; `[]`
      when none matches. Taking `<` where `<=` is written leaves `=` where
      a digit is needed, so the first alternative that matches is the one
      the whole expression keeps. */
  function OperatorAt(s: string, i: nat): (op: string)
    ensures op == [] || (IsCompareOp(op) && HasAt(s, i, op))
  {
    if HasAt(s, i, "<=") then "<="
    else if HasAt(s, i, ">=") then ">="
    else if HasAt(s, i, "==") then "=="
    else if HasAt(s, i, "!=") then "!="
    else if HasAt(s, i, "<") then "<"
    else if HasAt(s, i, ">") then ">"
    else []
  }

  predicate AllDigits(s: string) {
    forall k | 0 <= k < |s| :: IsDigit(s[k])
  }

  /** The number `whole.frac` written in decimal (`parseFloat`, without
      rounding to a double). */
  function DecimalValue(whole: string, frac: string): (v: real)
    requires AllDigits(whole) && AllDigits(frac)
    ensures v >= 0.0
  {
    DigitsValue(whole) as real + DigitsValue(frac) as real / Pow10(|frac|) as real
  }

  /** `(\d+(?:\.\d+)?)$` from `v`: the number written there, when it runs
      to the end of the text. */
  function NumberFrom(t: string, v: nat): (r: Option<real>)
    requires v <= |t|
    ensures r.Some? ==> r.value >= 0.0
  {
    var d := DigitEnd(t, v);
    DigitRun(t, v);
    if d == v then None
    else if d == |t| then Some(DecimalValue(t[v..d], []))
    else if t[d] == '.' && d + 1 < DigitEnd(t, d + 1) && DigitEnd(t, d + 1) == |t| then
      DigitRun(t, d + 1);
      Some(DecimalValue(t[v..d], t[d + 1..]))
    else None
  }

  /** `^([\w.]+)\s*(<=|>=|==|!=|<|>)\s*(\d+(?:\.\d+)?)$` on the whole text.
      Every quantifier takes its longest run: a shorter one always leaves a
      character the next part cannot start with. */
  function ConditionSyntax(t: string): (r: Option<Condition>)
    ensures r.Some? ==> |r.value.field| > 0 && IsCompareOp(r.value.op)
    ensures r.Some? ==> r.value.value.Number? && r.value.value.n.Finite? && r.value.value.n.r >= 0.0
  {
    var f := FieldEnd(t, 0);
    var o := SpaceEnd(t, f);
    var op := OperatorAt(t, o);
    if f == 0 || op == [] then None
    else match NumberFrom(t, SpaceEnd(t, o + |op|))
      case None => None
      case Some(x) => Some(Condition(t[..f], op, Number(Finite(x))))
  }

  /** `parseCondition`: the pattern is matched against the trimmed text. */
  function ConditionOf(text: string): Option<Condition> {
    ConditionSyntax(Trim(text))
  }

  /** `\s+(AND|OR)\s+` matched at `q`: the captured operator and where the
      match ends. Only the longest leading run can be followed by a letter,
      and the trailing `\s+` is greedy. */
  function SeparatorAt(s: string, q: nat): (r: Option<(string, nat)>)
    ensures r.Some? ==> IsLogicalOp(r.value.0) && q < r.value.1 <= |s|
  {
    if q < |s| && IsSpace(s[q]) then
      var k := SpaceEnd(s, q);
      var w := if HasAt(s, k, "AND") then "AND" else if HasAt(s, k, "OR") then "OR" else [];
      if w != [] && k + |w| < |s| && IsSpace(s[k + |w|]) then Some((w, SpaceEnd(s, k + |w|)))
      else None
    else None
  }

  /** `String.prototype.split` with that separator: the piece from `p` to the
      next match at or after `q`, the captured operator, then the rest; the
      text after the last match is the final piece. */
  function SplitFrom(s: string, p: nat, q: nat): (parts: seq<string>)
    requires p <= q <= |s|
    ensures |parts| >= 1
    decreases |s| - q
  {
    if q == |s| then [s[p..]]
    else match SeparatorAt(s, q)
      case Some((w, e)) => [s[p..q], w] + SplitFrom(s, e, e)
      case None => SplitFrom(s, p, q + 1)
  }

  function Split(s: string): seq<string> {
    SplitFrom(s, 0, 0)
  }

  /** Folds the trimmed pieces into `acc`: AND and OR become operators,
      blank pieces are skipped, anything else must be a condition, and the
      first piece that is not stops the fold with its error. */
  function GroupFrom(parts: seq<string>, acc: ConditionGroup): Result<ConditionGroup, RuleFault>
    decreases |parts|
  {
    if parts == [] then Ok(acc)
    else
      var part := Trim(parts[0]);
      if part == "AND" || part == "OR" then
        GroupFrom(parts[1..], ConditionGroup(acc.conditions, acc.operators + [part]))
      else if part == [] then GroupFrom(parts[1..], acc)
      else match ConditionOf(part)
        case None => Err(InvalidConditionSyntax(part))
        case Some(c) => GroupFrom(parts[1..], ConditionGroup(acc.conditions + [c], acc.operators))
  }

  /** `parseConditions`. */
  function GroupOf(text: string): Result<ConditionGroup, RuleFault> {
    GroupFrom(Split(text), ConditionGroup([], []))
  }

  /** `parseRule`: the WHEN text is parsed before the DO action is looked
      for, so a bad condition is reported even when DO is missing its
      action. */
  function RuleOf(name: string, body: string): (r: Result<Rule, RuleFault>)
    ensures r.Ok? ==> r.value.name == name
  {
    match FindWhen(body, 0)
    case None => Err(MissingWhenOrDo)
    case Some(text) =>
      match GroupOf(text)
      case Err(f) => Err(f)
      case Ok(g) =>
        match FindKeywordWord(body, 0, "DO")
        case None => Err(MissingActionAfterDo)
        case Some(a) => Ok(Rule(name, g, a))
  }

  /** The rules that parsed, in order of appearance. */
  function ParsedRules(ms: seq<RuleText>): seq<Rule>
    decreases |ms|
  {
    if ms == [] then []
    else match RuleOf(ms[0].name, ms[0].body)
      case Ok(r) => [r] + ParsedRules(ms[1..])
      case Err(_) => ParsedRules(ms[1..])
  }

  /** One error per rule that did not parse, in order of appearance. */
  function RuleErrors(ms: seq<RuleText>): (errs: seq<ParseError>)
    ensures forall e | e in errs :: e.RuleError?
    decreases |ms|
  {
    if ms == [] then []
    else match RuleOf(ms[0].name, ms[0].body)
      case Ok(_) => RuleErrors(ms[1..])
      case Err(f) => [RuleError(ms[0].name, f)] + RuleErrors(ms[1..])
  }

  /** The state of the `exec` loop of `extractRules` once it has run from
      position `i` to the end, given the rules and errors it had at `i`. */
  function ExtractFrom(s: string, i: nat, rules: seq<Rule>, errors: seq<ParseError>): (seq<Rule>, seq<ParseError>)
    requires i <= |s|
    decreases |s| - i
  {
    match FindRule(s, i)
    case None => (rules, errors)
    case Some(m) =>
      match RuleOf(m.name, m.body)
      case Ok(r) => ExtractFrom(s, m.end, rules + [r], errors)
      case Err(f) => ExtractFrom(s, m.end, rules, errors + [RuleError(m.name, f)])
  }

  /** The loop appends the parsed rules and the rule errors of every match. */
  lemma {:induction false} ExtractFromAppends(s: string, i: nat, rules: seq<Rule>, errors: seq<ParseError>)
    requires i <= |s|
    ensures ExtractFrom(s, i, rules, errors)
            == (rules + ParsedRules(RuleTexts(s, i)), errors + RuleErrors(RuleTexts(s, i)))
    decreases |s| - i
  {
    match FindRule(s, i)
    case None =>
      assert RuleTexts(s, i) == [];
      AppendEmpty(rules);
      AppendEmpty(errors);
    case Some(m) =>
      var ms := RuleTexts(s, i);
      assert ms[0] == m && ms[1..] == RuleTexts(s, m.end);
      match RuleOf(m.name, m.body)
      case Ok(r) =>
        ExtractFromAppends(s, m.end, rules + [r], errors);
        AppendAssoc(rules, [r], ParsedRules(ms[1..]));
      case Err(f) =>
        ExtractFromAppends(s, m.end, rules, errors + [RuleError(m.name, f)]);
        AppendAssoc(errors, [RuleError(m.name, f)], RuleErrors(ms[1..]));
  }

  /** What `parse` returns for a source text. */
  function ParseOf(code: string): ParseResult
  {
    var s := CleanCode(code);
    match FindStrategy(s, 0)
    case None => ParseResult(false, None, [MissingStrategy])
    case Some(name) =>
      var ms := RuleTexts(s, 0);
      var errs := RuleErrors(ms);
      match FindKeywordWord(s, 0, "DEFAULT")
      case None => ParseResult(false, None, errs + [MissingDefault])
      case Some(d) =>
        if errs == [] then ParseResult(true, Some(Strategy(name, ParsedRules(ms), d)), [])
        else ParseResult(false, None, errs)
  }

  /** The shape of every parse result: success exactly when no error was
      recorded, a strategy exactly on success; a missing STRATEGY is the only
      error; a missing DEFAULT comes after the errors of the rules; on
      success the rules are every rule match, in order. */
  lemma ParseOutcome(code: string)
    ensures ParseOf(code).success <==> ParseOf(code).errors == []
    ensures ParseOf(code).strategy.Some? <==> ParseOf(code).success
    ensures FindStrategy(CleanCode(code), 0).None? ==> ParseOf(code).errors == [MissingStrategy]
    ensures FindStrategy(CleanCode(code), 0).Some? && FindKeywordWord(CleanCode(code), 0, "DEFAULT").None?
            ==> ParseOf(code).errors == RuleErrors(RuleTexts(CleanCode(code), 0)) + [MissingDefault]
    ensures ParseOf(code).success
            ==> ParseOf(code).strategy.value.rules == ParsedRules(RuleTexts(CleanCode(code), 0))
                && |ParseOf(code).strategy.value.rules| == |RuleTexts(CleanCode(code), 0)|
  {
    var ms := RuleTexts(CleanCode(code), 0);
    OutcomesPartition(ms);
  }

  /** Every rule match yields either a rule or an error, never both. */
  lemma {:induction false} OutcomesPartition(ms: seq<RuleText>)
    ensures |ParsedRules(ms)| + |RuleErrors(ms)| == |ms|
    decreases |ms|
  {
    if ms != [] {
      OutcomesPartition(ms[1..]);
    }
  }

  // ---------------------------------------------------------------------
  // Writing conditions back as text

  /** A condition as it can be written: `field op whole` or
      `field op whole.frac`, with single spaces around the operator. */
  datatype WrittenCondition = WrittenCondition(field: string, op: string, whole: string, frac: string)

  predicate Writable(w: WrittenCondition) {
    && |w.field| > 0 && (forall k | 0 <= k < |w.field| :: IsFieldChar(w.field[k]))
    && IsCompareOp(w.op)
    && |w.whole| > 0 && AllDigits(w.whole) && AllDigits(w.frac)
  }

  function Written(w: WrittenCondition): string {
    w.field + " " + w.op + " " + Digits(w)
  }

  /** The value as written: the whole part, then the fraction if any. */
  function Digits(w: WrittenCondition): string {
    w.whole + (if w.frac == [] then [] else "." + w.frac)
  }

  /** The condition the text stands for. */
  function Meaning(w: WrittenCondition): Condition
    requires Writable(w)
  {
    Condition(w.field, w.op, Number(Finite(DecimalValue(w.whole, w.frac))))
  }

  lemma HasAtFirst(s: string, i: nat, w: string)
    requires HasAt(s, i, w) && |w| > 0
    ensures s[i] == w[0]
  {
    assert s[i..i + |w|][0] == w[0];
  }

  /** The pieces of a written condition. */
  lemma WrittenParts(w: WrittenCondition)
    ensures var t, f, l := Written(w), |w.field|, |w.op|;
            && |t| == f + l + 2 + |Digits(w)|
            && t[..f] == w.field && t[f] == ' '
            && t[f + 1..f + 1 + l] == w.op && t[f + 1 + l] == ' '
            && t[f + 2 + l..] == Digits(w)
  {
  }

  /** A written condition holds white space only around its operator, and
      each space is followed by an operator character or a digit. */
  lemma WrittenSpaces(w: WrittenCondition)
    requires Writable(w)
    ensures var t, f, l := Written(w), |w.field|, |w.op|;
            && (forall k | 0 <= k < |t| && IsSpace(t[k]) :: k == f || k == f + 1 + l)
            && t[f + 1] in "<>=!" && IsDigit(t[f + 2 + l])
            && !IsSpace(t[0]) && !IsSpace(t[|t| - 1])
  {
    var t, f, l := Written(w), |w.field|, |w.op|;
    var num := Digits(w);
    assert t == w.field + [' '] + w.op + [' '] + num;
    assert forall k | 0 <= k < |num| :: IsDigit(num[k]) || num[k] == '.';
    assert forall k | 0 <= k < l :: w.op[k] in "<>=!";
    forall k | 0 <= k < |t| && k != f && k != f + 1 + l
      ensures !IsSpace(t[k])
    {
      if k < f {
        assert t[k] == w.field[k];
      } else if k < f + 1 + l {
        assert t[k] == w.op[k - f - 1];
      } else {
        assert t[k] == num[k - f - 2 - l];
      }
    }
    assert t[f + 1] == w.op[0];
    assert t[f + 2 + l] == w.whole[0];
    assert t[|t| - 1] == num[|num| - 1];
  }

  /** The operator alternatives pick exactly the operator written when a
      space follows it. */
  lemma OperatorAtIs(t: string, o: nat, op: string)
    requires IsCompareOp(op) && HasAt(t, o, op) && o + |op| < |t| && t[o + |op|] == ' '
    ensures OperatorAt(t, o) == op
  {
    assert t[o..o + |op|] == op;
    if |op| == 1 {
      assert t[o + 1] == ' ';
      forall x: string | |x| == 2 && HasAt(t, o, x)
        ensures x[1] == ' '
      {
        assert t[o..o + 2][1] == x[1];
      }
    }
  }

  /** The number pattern reads the written digits, with their fraction. */
  lemma NumberFromIs(t: string, v: nat, w: WrittenCondition)
    requires v <= |t| && |w.whole| > 0 && AllDigits(w.whole) && AllDigits(w.frac)
    requires t[v..] == Digits(w)
    ensures NumberFrom(t, v) == Some(DecimalValue(w.whole, w.frac))
  {
    var d := v + |w.whole|;
    assert t[v..d] == w.whole;
    assert forall k | v <= k < d :: t[k] == w.whole[k - v];
    DigitEndIs(t, v, d);
    if w.frac != [] {
      assert t[d] == '.';
      assert t[d + 1..] == w.frac;
      assert forall k | d + 1 <= k < |t| :: t[k] == w.frac[k - d - 1];
      DigitEndIs(t, d + 1, |t|);
    }
  }

  /** A comparison operator starts with neither white space nor a field
      character. */
  lemma CompareOpStart(op: string)
    requires IsCompareOp(op)
    ensures 1 <= |op| <= 2 && !IsSpace(op[0]) && !IsFieldChar(op[0])
  {
  }

  /** A field followed by one space and then something else. */
  lemma FieldPart(t: string, f: nat)
    requires 0 < f && f + 1 < |t|
    requires forall k | 0 <= k < f :: IsFieldChar(t[k])
    requires t[f] == ' ' && !IsSpace(t[f + 1])
    ensures FieldEnd(t, 0) == f && SpaceEnd(t, f) == f + 1
  {
    FieldEndIs(t, 0, f);
    SpaceEndIs(t, f, f + 1);
  }

  /** An operator followed by one space and then something else. */
  lemma OperatorPart(t: string, o: nat, op: string)
    requires IsCompareOp(op) && HasAt(t, o, op)
    requires o + |op| + 1 < |t| && t[o + |op|] == ' ' && !IsSpace(t[o + |op| + 1])
    ensures OperatorAt(t, o) == op && SpaceEnd(t, o + |op|) == o + |op| + 1
  {
    OperatorAtIs(t, o, op);
    SpaceEndIs(t, o + |op|, o + |op| + 1);
  }

  /** `parseCondition` reads a written condition back as the condition it
      stands for; decimals keep their fraction. */
  lemma ConditionRoundTrip(w: WrittenCondition)
    requires Writable(w)
    ensures ConditionOf(Written(w)) == Some(Meaning(w))
  {
    var t := Written(w);
    WrittenParts(w);
    WrittenSpaces(w);
    TrimKeepsPlain(t);
    ReadCondition(t, w);
  }

  /** The pattern of `parseCondition` on any text laid out like a written
      condition. */
  lemma ReadCondition(t: string, w: WrittenCondition)
    requires Writable(w)
    requires var f, l := |w.field|, |w.op|;
             && |t| == f + l + 2 + |Digits(w)|
             && t[..f] == w.field && t[f] == ' '
             && t[f + 1..f + 1 + l] == w.op && t[f + 1 + l] == ' '
             && t[f + 2 + l..] == Digits(w)
    ensures ConditionSyntax(t) == Some(Meaning(w))
  {
    ReadNumber(t, w);
    DigitsStart(w);
    ReadConditionFrom(t, w.field, w.op, Digits(w), DecimalValue(w.whole, w.frac));
  }

  /** The number part of such a text reads as the written value. */
  lemma ReadNumber(t: string, w: WrittenCondition)
    requires Writable(w)
    requires var f, l := |w.field|, |w.op|;
             && |t| == f + l + 2 + |Digits(w)|
             && t[..f] == w.field && t[f] == ' '
             && t[f + 1..f + 1 + l] == w.op && t[f + 1 + l] == ' '
             && t[f + 2 + l..] == Digits(w)
    ensures NumberFrom(t, |w.field| + 2 + |w.op|) == Some(DecimalValue(w.whole, w.frac))
  {
    NumberFromIs(t, |w.field| + 2 + |w.op|, w);
  }

  /** A written value starts with a digit. */
  lemma DigitsStart(w: WrittenCondition)
    requires |w.whole| > 0 && AllDigits(w.whole)
    ensures Digits(w) != [] && IsDigit(Digits(w)[0])
  {
    assert Digits(w)[0] == w.whole[0];
  }

  /** `ConditionSyntax` on a field, one space, an operator, one space and a
      number. */
  lemma ReadConditionFrom(t: string, field: string, op: string, digits: string, x: real)
    requires |field| > 0 && (forall k | 0 <= k < |field| :: IsFieldChar(field[k])) && IsCompareOp(op)
    requires digits != [] && IsDigit(digits[0])
    requires |t| == |field| + |op| + 2 + |digits|
    requires t[..|field|] == field && t[|field|] == ' '
    requires t[|field| + 1..|field| + 1 + |op|] == op && t[|field| + 1 + |op|] == ' '
    requires t[|field| + 2 + |op|..] == digits
    requires NumberFrom(t, |field| + 2 + |op|) == Some(x)
    ensures ConditionSyntax(t) == Some(Condition(field, op, Number(Finite(x))))
  {
    var f := |field|;
    forall k | 0 <= k < f
      ensures IsFieldChar(t[k])
    {
      assert t[k] == t[..f][k];
    }
    assert HasAt(t, f + 1, op);
    SuffixHead(t, f + 2 + |op|, digits);
    HasAtFirst(t, f + 1, op);
    CompareOpStart(op);
    FieldPart(t, f);
    assert t[f + 2 + |op|] == digits[0];
    DigitNotSpace(digits[0]);
    assert !IsSpace(t[f + 2 + |op|]);
    assert t[f + 1 + |op|] == ' ';
    OperatorPart(t, f + 1, op);
    ConditionSyntaxIs(t, f, f + 1, op, f + 2 + |op|, x);
  }

  /** `ConditionSyntax` from the pieces its pattern matches. */
  lemma ConditionSyntaxIs(t: string, f: nat, o: nat, op: string, v: nat, x: real)
    requires 0 < f <= |t| && FieldEnd(t, 0) == f && SpaceEnd(t, f) == o
    requires op != [] && OperatorAt(t, o) == op && o + |op| <= |t| && SpaceEnd(t, o + |op|) == v
    requires NumberFrom(t, v) == Some(x)
    ensures ConditionSyntax(t) == Some(Condition(t[..f], op, Number(Finite(x))))
  {
  }

  // ---------------------------------------------------------------------
  // Splitting and grouping written groups

  /** `split` cuts at the leftmost separator: with no match from `q` on, the
      rest of the text is the last piece. */
  lemma {:induction false} SplitWithoutSeparator(s: string, p: nat, q: nat)
    requires p <= q <= |s|
    requires forall k | q <= k < |s| :: SeparatorAt(s, k).None?
    ensures SplitFrom(s, p, q) == [s[p..]]
    decreases |s| - q
  {
    if q < |s| {
      SplitWithoutSeparator(s, p, q + 1);
    }
  }

  /** At the first match from `q` on, the piece before it and the operator
      it captures come out, and splitting resumes where the match ends. */
  lemma {:induction false} SplitAtFirstSeparator(s: string, p: nat, q: nat, k: nat, w: string, e: nat)
    requires p <= q <= k < |s|
    requires forall j | q <= j < k :: SeparatorAt(s, j).None?
    requires SeparatorAt(s, k) == Some((w, e))
    ensures e <= |s| && SplitFrom(s, p, q) == [s[p..k], w] + SplitFrom(s, e, e)
    decreases k - q
  {
    if q < k {
      SplitAtFirstSeparator(s, p, q + 1, k, w, e);
    }
  }

  /** One space, AND or OR, one space, then something other than white
      space: the separator pattern matches exactly that. */
  lemma SeparatorJoint(s: string, q: nat, op: string)
    requires IsLogicalOp(op) && q + |op| + 2 < |s|
    requires s[q] == ' ' && HasAt(s, q + 1, op) && s[q + 1 + |op|] == ' '
    requires !IsSpace(s[q + 2 + |op|])
    ensures SeparatorAt(s, q) == Some((op, q + 2 + |op|))
  {
    HasAtFirst(s, q + 1, op);
    SpaceEndIs(s, q, q + 1);
    if op == "OR" && HasAt(s, q + 1, "AND") {
      HasAtFirst(s, q + 1, "AND");
    }
    SpaceEndIs(s, q + 1 + |op|, q + 2 + |op|);
  }

  /** Text `split` does not cut: no white space at either end, and every
      white-space character is followed by one that is neither white space
      nor the first letter of AND or OR. */
  predicate Unseparated(t: string) {
    && t != [] && !IsSpace(t[0]) && !IsSpace(t[|t| - 1])
    && forall k | 0 <= k < |t| - 1 && IsSpace(t[k]) ::
         !IsSpace(t[k + 1]) && t[k + 1] != 'A' && t[k + 1] != 'O'
  }

  /** No separator starts inside such a text, wherever it stands. */
  lemma UnseparatedPlain(s: string, p: nat, t: string)
    requires Unseparated(t) && p + |t| <= |s| && s[p..p + |t|] == t
    ensures forall k | p <= k < p + |t| :: SeparatorAt(s, k).None?
  {
    forall k | p <= k < p + |t|
      ensures SeparatorAt(s, k).None?
    {
      assert s[k] == t[k - p];
      if IsSpace(s[k]) {
        assert s[k + 1] == t[k - p + 1];
        SpaceEndIs(s, k, k + 1);
        if HasAt(s, k + 1, "AND") {
          HasAtFirst(s, k + 1, "AND");
        }
        if HasAt(s, k + 1, "OR") {
          HasAtFirst(s, k + 1, "OR");
        }
      }
    }
  }

  /** A written condition is such a text: its two spaces are followed by an
      operator character and a digit. */
  lemma WrittenUnseparated(w: WrittenCondition)
    requires Writable(w)
    ensures Unseparated(Written(w))
  {
    WrittenParts(w);
    WrittenSpaces(w);
  }

  /** Texts joined by single-spaced operators: `t0 op0 t1 op1 t2`. */
  function Join(texts: seq<string>, ops: seq<string>): string
    requires |texts| == |ops| + 1
    decreases |ops|
  {
    if ops == [] then texts[0]
    else texts[0] + " " + ops[0] + " " + Join(texts[1..], ops[1..])
  }

  /** The pieces `split` gives back for a join: `[t0, op0, t1, op1, t2]`. */
  function Interleave(texts: seq<string>, ops: seq<string>): (parts: seq<string>)
    requires |texts| == |ops| + 1
    ensures |parts| == |texts| + |ops|
    decreases |ops|
  {
    if ops == [] then texts else [texts[0], ops[0]] + Interleave(texts[1..], ops[1..])
  }

  /** Where the parts of `t op rest` lie in a text holding it from `p` on. */
  lemma JoinParts(s: string, p: nat, t: string, op: string, rest: string)
    requires p <= |s| && s[p..] == t + " " + op + " " + rest
    ensures var q := p + |t|;
            && q + |op| + 2 <= |s| && s[p..q] == t
            && s[q] == ' ' && HasAt(s, q + 1, op) && s[q + 1 + |op|] == ' '
            && s[q + 2 + |op|..] == rest
  {
    var q := p + |t|;
    var g := t + " " + op + " " + rest;
    forall i | 0 <= i < |g|
      ensures s[p + i] == g[i]
    {
      assert s[p..][i] == s[p + i];
    }
    forall i | 0 <= i < |t|
      ensures s[p..q][i] == t[i]
    {
      assert g[i] == t[i];
    }
    assert g[|t|] == ' ' && g[|t| + 1 + |op|] == ' ';
    forall i | 0 <= i < |op|
      ensures s[q + 1..q + 1 + |op|][i] == op[i]
    {
      assert g[|t| + 1 + i] == op[i];
    }
    forall i | 0 <= i < |rest|
      ensures s[q + 2 + |op|..][i] == rest[i]
    {
      assert g[|t| + 2 + |op| + i] == rest[i];
    }
  }

  /** `split` gives back the pieces of a join of unseparated texts. */
  lemma {:induction false} SplitJoin(s: string, p: nat, texts: seq<string>, ops: seq<string>)
    requires |texts| == |ops| + 1 && (forall i | 0 <= i < |texts| :: Unseparated(texts[i]))
    requires forall i | 0 <= i < |ops| :: IsLogicalOp(ops[i])
    requires p <= |s| && s[p..] == Join(texts, ops)
    ensures SplitFrom(s, p, p) == Interleave(texts, ops)
    decreases |ops|
  {
    var t := texts[0];
    if ops == [] {
      assert s[p..] == t && s[p..p + |t|] == t;
      UnseparatedPlain(s, p, t);
      SplitWithoutSeparator(s, p, p);
      assert texts == [t];
    } else {
      var e := p + |t| + 2 + |ops[0]|;
      SplitJoinHead(s, p, texts, ops, e);
      assert forall i | 0 <= i < |texts| - 1 :: texts[1..][i] == texts[i + 1];
      assert forall i | 0 <= i < |ops| - 1 :: ops[1..][i] == ops[i + 1];
      SplitJoin(s, e, texts[1..], ops[1..]);
      assert Interleave(texts, ops) == [t, ops[0]] + Interleave(texts[1..], ops[1..]);
    }
  }

  /** `split` gives back the first piece and operator of a join, and goes on
      where the next piece starts. */
  lemma SplitJoinHead(s: string, p: nat, texts: seq<string>, ops: seq<string>, e: nat)
    requires |texts| == |ops| + 1 && ops != [] && Unseparated(texts[0]) && Unseparated(texts[1])
    requires IsLogicalOp(ops[0])
    requires p <= |s| && s[p..] == Join(texts, ops)
    requires e == p + |texts[0]| + 2 + |ops[0]|
    ensures e <= |s| && s[e..] == Join(texts[1..], ops[1..])
    ensures SplitFrom(s, p, p) == [texts[0], ops[0]] + SplitFrom(s, e, e)
  {
    var t, op, next := texts[0], ops[0], texts[1];
    var rest := Join(texts[1..], ops[1..]);
    JoinParts(s, p, t, op, rest);
    assert texts[1..][0] == next;
    JoinStart(texts[1..], ops[1..]);
    SuffixHead(s, e, rest);
    assert s[e] == next[0] && !IsSpace(next[0]);
    SplitAtJoint(s, p, t, op, e);
  }

  lemma DigitNotSpace(c: char)
    requires IsDigit(c)
    ensures !IsSpace(c)
  {
  }

  lemma SuffixHead<T>(s: seq<T>, e: nat, u: seq<T>)
    requires e <= |s| && s[e..] == u && u != []
    ensures e < |s| && s[e] == u[0]
  {
  }

  /** A join starts with the first character of its first piece. */
  lemma JoinStart(texts: seq<string>, ops: seq<string>)
    requires |texts| == |ops| + 1 && texts[0] != []
    ensures Join(texts, ops) != [] && Join(texts, ops)[0] == texts[0][0]
  {
    if ops != [] {
      var rest := " " + ops[0] + " " + Join(texts[1..], ops[1..]);
      assert Join(texts, ops) == texts[0] + rest;
    }
  }

  /** `split` cuts an unseparated text off at the operator after it. */
  lemma SplitAtJoint(s: string, p: nat, t: string, op: string, e: nat)
    requires IsLogicalOp(op) && Unseparated(t) && e == p + |t| + 2 + |op|
    requires e < |s| && s[p..p + |t|] == t
    requires s[p + |t|] == ' ' && HasAt(s, p + |t| + 1, op) && s[p + |t| + 1 + |op|] == ' '
    requires !IsSpace(s[e])
    ensures SplitFrom(s, p, p) == [t, op] + SplitFrom(s, e, e)
  {
    var q := p + |t|;
    UnseparatedPlain(s, p, t);
    SeparatorJoint(s, q, op);
    SplitAtFirstSeparator(s, p, p, q, op, e);
    var rest := SplitFrom(s, e, e);
    assert [s[p..q], op] == [t, op];
    assert SplitFrom(s, p, p) == [t, op] + rest;
  }

  /** A text that is its own trim, is no operator word and is a condition. */
  predicate ConditionPiece(t: string, c: Condition) {
    Trim(t) == t && t != [] && !IsLogicalOp(t) && ConditionOf(t) == Some(c)
  }

  /** A written condition is such a piece for its meaning. */
  lemma WrittenPiece(w: WrittenCondition)
    requires Writable(w)
    ensures ConditionPiece(Written(w), Meaning(w))
  {
    WrittenParts(w);
    WrittenSpaces(w);
    TrimKeepsPlain(Written(w));
    ConditionRoundTrip(w);
  }

  /** One condition piece and one operator move into the group. */
  lemma GroupStep(t: string, c: Condition, op: string, rest: seq<string>, acc: ConditionGroup)
    requires ConditionPiece(t, c) && IsLogicalOp(op)
    ensures GroupFrom([t, op] + rest, acc)
            == GroupFrom(rest, ConditionGroup(acc.conditions + [c], acc.operators + [op]))
  {
    var parts := [t, op] + rest;
    TrimKeepsPlain(op);
    assert parts[1..][0] == op && parts[1..][1..] == rest;
  }

  /** Folding alternating condition pieces and operators appends the
      conditions and the operators, in order. */
  lemma {:induction false} GroupFromPieces(texts: seq<string>, ops: seq<string>, cs: seq<Condition>, acc: ConditionGroup)
    requires |texts| == |ops| + 1 && |cs| == |texts|
    requires forall i | 0 <= i < |texts| :: ConditionPiece(texts[i], cs[i])
    requires forall i | 0 <= i < |ops| :: IsLogicalOp(ops[i])
    ensures GroupFrom(Interleave(texts, ops), acc)
            == Ok(ConditionGroup(acc.conditions + cs, acc.operators + ops))
    decreases |ops|
  {
    if ops == [] {
      assert Interleave(texts, ops) == [texts[0]];
      GroupFromLast(texts[0], cs[0], acc);
      assert cs == [cs[0]] && acc.operators + [] == acc.operators;
    } else {
      var acc2 := ConditionGroup(acc.conditions + [cs[0]], acc.operators + [ops[0]]);
      GroupStep(texts[0], cs[0], ops[0], Interleave(texts[1..], ops[1..]), acc);
      PiecesTail(texts, ops, cs);
      GroupFromPieces(texts[1..], ops[1..], cs[1..], acc2);
      AppendShift(acc.conditions, cs);
      AppendShift(acc.operators, ops);
    }
  }

  /** The last condition piece closes the group. */
  lemma GroupFromLast(t: string, c: Condition, acc: ConditionGroup)
    requires ConditionPiece(t, c)
    ensures GroupFrom([t], acc) == Ok(ConditionGroup(acc.conditions + [c], acc.operators))
  {
  }

  lemma PiecesTail(texts: seq<string>, ops: seq<string>, cs: seq<Condition>)
    requires |texts| == |ops| + 1 && |cs| == |texts| && ops != []
    requires forall i | 0 <= i < |texts| :: ConditionPiece(texts[i], cs[i])
    requires forall i | 0 <= i < |ops| :: IsLogicalOp(ops[i])
    ensures forall i | 0 <= i < |texts| - 1 :: ConditionPiece(texts[1..][i], cs[1..][i])
    ensures forall i | 0 <= i < |ops| - 1 :: IsLogicalOp(ops[1..][i])
  {
    forall i | 0 <= i < |texts| - 1
      ensures ConditionPiece(texts[1..][i], cs[1..][i])
    {
      assert texts[1..][i] == texts[i + 1] && cs[1..][i] == cs[i + 1];
    }
  }

  lemma AppendShift<T>(a: seq<T>, b: seq<T>)
    requires b != []
    ensures (a + [b[0]]) + b[1..] == a + b
  {
    assert b == [b[0]] + b[1..];
  }

  /** The condition texts of a group, one per written condition. */
  function Writtens(ws: seq<WrittenCondition>): (ts: seq<string>)
    ensures |ts| == |ws| && forall i | 0 <= i < |ws| :: ts[i] == Written(ws[i])
  {
    seq(|ws|, i requires 0 <= i < |ws| => Written(ws[i]))
  }

  function Meanings(ws: seq<WrittenCondition>): (cs: seq<Condition>)
    requires forall i | 0 <= i < |ws| :: Writable(ws[i])
    ensures |cs| == |ws| && forall i | 0 <= i < |ws| :: cs[i] == Meaning(ws[i])
  {
    seq(|ws|, i requires 0 <= i < |ws| && Writable(ws[i]) => Meaning(ws[i]))
  }

  /** Every written condition is an unseparated condition piece. */
  lemma WrittenPieces(ws: seq<WrittenCondition>)
    requires forall i | 0 <= i < |ws| :: Writable(ws[i])
    ensures forall i | 0 <= i < |ws| ::
              Unseparated(Writtens(ws)[i]) && ConditionPiece(Writtens(ws)[i], Meanings(ws)[i])
  {
    forall i | 0 <= i < |ws|
      ensures Unseparated(Writtens(ws)[i]) && ConditionPiece(Writtens(ws)[i], Meanings(ws)[i])
    {
      WrittenUnseparated(ws[i]);
      WrittenPiece(ws[i]);
    }
  }

  /** `parseConditions` on condition pieces joined by AND and OR. */
  lemma GroupOfJoin(texts: seq<string>, ops: seq<string>, cs: seq<Condition>)
    requires |texts| == |ops| + 1 && |cs| == |texts|
    requires forall i | 0 <= i < |texts| :: Unseparated(texts[i]) && ConditionPiece(texts[i], cs[i])
    requires forall i | 0 <= i < |ops| :: IsLogicalOp(ops[i])
    ensures GroupOf(Join(texts, ops)) == Ok(ConditionGroup(cs, ops))
  {
    var s := Join(texts, ops);
    assert s[0..] == s;
    SplitJoin(s, 0, texts, ops);
    GroupFromPieces(texts, ops, cs, ConditionGroup([], []));
    assert [] + cs == cs && [] + ops == ops;
  }

  /** `parseConditions` reads written conditions joined by AND and OR back
      as those conditions and operators, however many conditions there are
      and however AND and OR are mixed. */
  lemma GroupRoundTrip(ws: seq<WrittenCondition>, ops: seq<string>)
    requires |ws| == |ops| + 1 && (forall i | 0 <= i < |ws| :: Writable(ws[i]))
    requires forall i | 0 <= i < |ops| :: IsLogicalOp(ops[i])
    ensures GroupOf(Join(Writtens(ws), ops)) == Ok(ConditionGroup(Meanings(ws), ops))
  {
    WrittenPieces(ws);
    GroupOfJoin(Writtens(ws), ops, Meanings(ws));
  }

  // ---------------------------------------------------------------------
  // The parser object

  class Parser {
    const code: string
    var errors: seq<ParseError>

    constructor(code: string)
      ensures this.code == code && errors == []
    {
      this.code := code;
      errors := [];
    }

    /** `parse`: the errors of an earlier call are discarded first. */
    method Parse() returns (r: ParseResult)
      modifies this
      ensures r == ParseOf(code)
      ensures errors == r.errors
    {
      errors := [];
      var cleaned := CleanCode(code);
      var name := FindStrategy(cleaned, 0);
      if name.None? {
        errors := errors + [MissingStrategy];
        return ParseResult(false, None, errors);
      }
      var rules := ExtractRules(cleaned);
      ghost var ms := RuleTexts(cleaned, 0);
      assert errors == RuleErrors(ms) && rules == ParsedRules(ms);
      var defaultAction := FindKeywordWord(cleaned, 0, "DEFAULT");
      if defaultAction.None? {
        errors := errors + [MissingDefault];
        return ParseResult(false, None, errors);
      }
      var strategy := Strategy(name.value, rules, defaultAction.value);
      r := ParseResult(errors == [], if errors == [] then Some(strategy) else None, errors);
    }

    /** `extractRules`: runs the global rule expression over the text,
        keeping the rules that parse and recording one error for each that
        does not. */
    method ExtractRules(s: string) returns (rules: seq<Rule>)
      modifies this
      ensures rules == ParsedRules(RuleTexts(s, 0))
      ensures errors == old(errors) + RuleErrors(RuleTexts(s, 0))
    {
      rules := [];
      var pos := 0;
      while true
        invariant pos <= |s|
        invariant ExtractFrom(s, 0, [], old(errors)) == ExtractFrom(s, pos, rules, errors)
        decreases |s| - pos
      {
        var m := FindRule(s, pos);
        if m.None? {
          break;
        }
        var rule := ParseRule(m.value.name, m.value.body);
        if rule.Ok? {
          rules := rules + [rule.value];
        } else {
          errors := errors + [RuleError(m.value.name, rule.error)];
        }
        pos := m.value.end;
      }
      ExtractFromAppends(s, 0, [], old(errors));
    }

    /** `parseRule`; the thrown error is the `Err` result. */
    method ParseRule(name: string, body: string) returns (r: Result<Rule, RuleFault>)
      ensures r == RuleOf(name, body)
    {
      var whenText := FindWhen(body, 0);
      if whenText.None? {
        return Err(MissingWhenOrDo);
      }
      var group := ParseConditions(whenText.value);
      if group.Err? {
        return Err(group.error);
      }
      var action := FindKeywordWord(body, 0, "DO");
      if action.None? {
        return Err(MissingActionAfterDo);
      }
      return Ok(Rule(name, group.value, action.value));
    }

    /** `parseConditions`: walks the split pieces, pushing operators and
        conditions; the first malformed condition is thrown. */
    method ParseConditions(text: string) returns (r: Result<ConditionGroup, RuleFault>)
      ensures r == GroupOf(text)
    {
      var parts := Split(text);
      var conditions: seq<Condition> := [];
      var operators: seq<string> := [];
      var i := 0;
      while i < |parts|
        invariant i <= |parts|
        invariant GroupOf(text) == GroupFrom(parts[i..], ConditionGroup(conditions, operators))
      {
        assert parts[i..][1..] == parts[i + 1..];
        var part := Trim(parts[i]);
        if part == "AND" || part == "OR" {
          operators := operators + [part];
        } else if part != [] {
          var c := ConditionOf(part);
          if c.None? {
            return Err(InvalidConditionSyntax(part));
          }
          conditions := conditions + [c.value];
        }
        i := i + 1;
      }
      return Ok(ConditionGroup(conditions, operators));
    }
  }

  /** `parseCode`: a fresh parser run once. */
  method ParseCode(code: string) returns (r: ParseResult)
    ensures r == ParseOf(code)
  {
    var parser := new Parser(code);
    r := parser.Parse();
  }
}
