/** The keyword patterns the code screens test submitted text against.
    Each pattern is an alternation of simple regular expressions of three
    shapes:
      - `\bname\s*\(` : a call of `name`;
      - `\bname\b`    : the whole word `name`;
      - `t0\s*t1\s*...\s*tn` : fixed tokens separated by optional white space.
    `pattern.test(text)` holds when some alternative matches somewhere.
    Every token of the tables starts with a character that is not white
    space, so the greedy `\s*` before it can only stop at the end of the
    white-space run, which is how the scanners below read it. */
module Patterns {
  import opened Text

  datatype Alternative =
    | CallOf(name: string)
    | WordOf(name: string)
    | Tokens(tokens: seq<string>)

  type Pattern = seq<Alternative>

  /** `\b` at position `i`: exactly one of the characters around it is a
      word character (outside the text counts as a non-word character). */
  predicate WordBoundary(s: string, i: nat)
    requires i <= |s|
  {
    (i > 0 && IsWordChar(s[i - 1])) != (i < |s| && IsWordChar(s[i]))
  }

  /** The tokens occur in order from `i`, each after the white space that
      ends the previous one. */
  predicate TokensAt(s: string, ts: seq<string>, i: nat)
    requires i <= |s|
    decreases |ts|
  {
    ts == [] || (HasAt(s, i, ts[0]) && TokensAt(s, ts[1..], SpaceEnd(s, i + |ts[0]|)))
  }

  /** The alternative matches starting at index `i`. */
  predicate MatchesAt(s: string, a: Alternative, i: nat)
    requires i <= |s|
  {
    match a
    case CallOf(n) =>
      && WordBoundary(s, i) && HasAt(s, i, n)
      && SpaceEnd(s, i + |n|) < |s| && s[SpaceEnd(s, i + |n|)] == '('
    case WordOf(n) => WordBoundary(s, i) && HasAt(s, i, n) && WordBoundary(s, i + |n|)
    case Tokens(ts) => TokensAt(s, ts, i)
  }

  /** `RegExp.prototype.test`. */
  predicate Test(s: string, p: Pattern) {
    exists k, i | 0 <= k < |p| && 0 <= i <= |s| :: MatchesAt(s, p[k], i)
  }

  /** A whole word occurring in a text is found by `\bname\b`. */
  lemma WordFound(a: string, n: string, b: string)
    requires n != [] && IsWordChar(n[0]) && IsWordChar(n[|n| - 1])
    requires a == [] || !IsWordChar(a[|a| - 1])
    requires b == [] || !IsWordChar(b[0])
    ensures Test(a + n + b, [WordOf(n)])
  {
    var s := a + n + b;
    assert s[|a|..|a| + |n|] == n;
    assert s[|a|] == n[0];
    assert |a| > 0 ==> s[|a| - 1] == a[|a| - 1];
    assert s[|a| + |n| - 1] == n[|n| - 1];
    assert |b| > 0 ==> s[|a| + |n|] == b[0];
    assert MatchesAt(s, [WordOf(n)][0], |a|);
  }

  /** A call written after a non-word character is found by
      `\bname\s*\(`. */
  lemma CallFound(a: string, n: string, w: string, b: string)
    requires n != [] && IsWordChar(n[0])
    requires a == [] || !IsWordChar(a[|a| - 1])
    requires IsBlank(w)
    ensures Test(a + n + w + "(" + b, [CallOf(n)])
  {
    var s := a + n + w + "(" + b;
    var i := |a|;
    assert s[i..i + |n|] == n;
    assert s[i] == n[0];
    assert i > 0 ==> s[i - 1] == a[|a| - 1];
    assert forall k | i + |n| <= k < i + |n| + |w| :: s[k] == w[k - i - |n|];
    assert s[i + |n| + |w|] == '(';
    SpaceEndIs(s, i + |n|, i + |n| + |w|);
    assert MatchesAt(s, [CallOf(n)][0], i);
  }

  /** One entry of a forbidden-pattern table. */
  datatype ScreenRule = ScreenRule(pattern: Pattern, message: string)

  /** The messages of the table's entries whose pattern the code matches,
      in table order. */
  function Screen(code: string, rules: seq<ScreenRule>): (msgs: seq<string>)
    ensures |msgs| <= |rules|
  {
    if rules == [] then []
    else
      var last := rules[|rules| - 1];
      Screen(code, rules[..|rules| - 1]) + (if Test(code, last.pattern) then [last.message] else [])
  }

  /** Screening one more entry of the table appends that entry's message
      when it matches. */
  lemma ScreenStep(code: string, rules: seq<ScreenRule>, i: nat)
    requires i < |rules|
    ensures Screen(code, rules[..i + 1]) ==
              Screen(code, rules[..i]) + (if Test(code, rules[i].pattern) then [rules[i].message] else [])
  {
    assert rules[..i + 1][..i] == rules[..i];
  }

  /** The screen reports nothing exactly when no entry matches. */
  lemma {:induction false} ScreenEmptyIff(code: string, rules: seq<ScreenRule>)
    ensures Screen(code, rules) == [] <==> forall k | 0 <= k < |rules| :: !Test(code, rules[k].pattern)
  {
    if rules != [] {
      var init := rules[..|rules| - 1];
      ScreenEmptyIff(code, init);
      assert forall k | 0 <= k < |init| :: init[k] == rules[k];
    }
  }

  /** Each message the screen reports belongs to an entry that matches. */
  lemma {:induction false} ScreenSound(code: string, rules: seq<ScreenRule>)
    ensures forall m | m in Screen(code, rules) ::
              exists k | 0 <= k < |rules| :: rules[k].message == m && Test(code, rules[k].pattern)
  {
    if rules != [] {
      var init := rules[..|rules| - 1];
      ScreenSound(code, init);
      assert forall k | 0 <= k < |init| :: init[k] == rules[k];
    }
  }

  /** The screen of a table's prefix is a prefix of its screen. */
  lemma {:induction false} ScreenPrefix(code: string, rules: seq<ScreenRule>, n: nat)
    requires n <= |rules|
    ensures Screen(code, rules[..n]) <= Screen(code, rules)
    decreases |rules|
  {
    if n < |rules| {
      var init := rules[..|rules| - 1];
      assert init[..n] == rules[..n];
      ScreenPrefix(code, init, n);
    } else {
      assert rules[..n] == rules;
    }
  }

  /** A text lacking one of a name's characters contains no occurrence of
      that name. */
  lemma NameAbsent(s: string, n: string, c: char)
    requires c in n && c !in s
    ensures forall i | 0 <= i <= |s| :: !HasAt(s, i, n)
  {
    forall i | 0 <= i <= |s|
      ensures !HasAt(s, i, n)
    {
      if i + |n| <= |s| {
        assert forall x | x in s[i..i + |n|] :: x in s;
      }
    }
  }

  /** `\bname\b` does not match a longer word that merely starts with
      `name`, provided the name's first character occurs nowhere else. */
  lemma WordInsideLongerWord(n: string, rest: string)
    requires n != [] && IsWordChar(n[|n| - 1])
    requires rest != [] && IsWordChar(rest[0])
    requires n[0] !in n[1..] + rest
    ensures !Test(n + rest, [WordOf(n)])
  {
    var s := n + rest;
    assert s[1..] == n[1..] + rest;
    forall i | 0 <= i <= |s|
      ensures !MatchesAt(s, [WordOf(n)][0], i)
    {
      if i == 0 {
        assert s[|n| - 1] == n[|n| - 1] && s[|n|] == rest[0];
        assert !WordBoundary(s, |n|);
      } else if i + |n| <= |s| {
        assert s[i] == s[1..][i - 1];
        assert s[i..i + |n|][0] == s[i];
      }
    }
  }

  /** A call or word pattern whose name has a character the text lacks
      never matches it. */
  lemma NameNeverMatches(code: string, a: Alternative, c: char)
    requires a.CallOf? || a.WordOf?
    requires c in a.name && c !in code
    ensures forall i | 0 <= i <= |code| :: !MatchesAt(code, a, i)
  {
    NameAbsent(code, a.name, c);
  }
}
