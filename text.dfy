/** Character classes and scanning helpers shared by the regular-expression
    scanners: JavaScript's `\s` (also the set `String.prototype.trim` removes),
    `\w`, `\d`, and the maximal runs the greedy quantifiers consume. */
module Text {

  /** JavaScript `\s`: white space and line terminators. */
  predicate IsSpace(c: char) {
    || c == ' ' || c == '\t' || c == '\n' || c == '\r' || c == '\U{B}' || c == '\U{C}'
    || c == '\U{A0}' || c == '\U{1680}' || ('\U{2000}' <= c <= '\U{200A}')
    || c == '\U{2028}' || c == '\U{2029}' || c == '\U{202F}' || c == '\U{205F}'
    || c == '\U{3000}' || c == '\U{FEFF}'
  }

  predicate IsDigit(c: char) { '0' <= c <= '9' }

  predicate IsUpper(c: char) { 'A' <= c <= 'Z' }

  predicate IsLower(c: char) { 'a' <= c <= 'z' }

  predicate IsAsciiLetter(c: char) { IsUpper(c) || IsLower(c) }

  /** JavaScript `\w`. */
  predicate IsWordChar(c: char) { IsAsciiLetter(c) || IsDigit(c) || c == '_' }

  /** `w` occurs in `s` starting at index `i`. */
  predicate HasAt(s: string, i: nat, w: string) {
    i + |w| <= |s| && s[i..i + |w|] == w
  }

  /** End of the maximal run of white space starting at `i`. */
  function SpaceEnd(s: string, i: nat): (e: nat)
    requires i <= |s|
    ensures i <= e <= |s|
    ensures e == |s| || !IsSpace(s[e])
    decreases |s| - i
  {
    if i < |s| && IsSpace(s[i]) then SpaceEnd(s, i + 1) else i
  }

  /** End of the maximal run of `\w` characters starting at `i`. */
  function WordEnd(s: string, i: nat): (e: nat)
    requires i <= |s|
    ensures i <= e <= |s|
    ensures e == |s| || !IsWordChar(s[e])
    decreases |s| - i
  {
    if i < |s| && IsWordChar(s[i]) then WordEnd(s, i + 1) else i
  }

  /** End of the maximal run of decimal digits starting at `i`. */
  function DigitEnd(s: string, i: nat): (e: nat)
    requires i <= |s|
    ensures i <= e <= |s|
    ensures e == |s| || !IsDigit(s[e])
    decreases |s| - i
  {
    if i < |s| && IsDigit(s[i]) then DigitEnd(s, i + 1) else i
  }

  /** First index `k >= i` with `s[k] == c`, if any. */
  function IndexFrom(s: string, c: char, i: nat): (r: int)
    requires i <= |s|
    ensures r == -1 || (i <= r < |s| && s[r] == c)
    decreases |s| - i
  {
    if i == |s| then -1 else if s[i] == c then i else IndexFrom(s, c, i + 1)
  }

  /** Everything a run function skips belongs to its class. */
  lemma SpaceRun(s: string, i: nat)
    requires i <= |s|
    ensures forall k | i <= k < SpaceEnd(s, i) :: IsSpace(s[k])
    decreases |s| - i
  {
    if i < |s| && IsSpace(s[i]) {
      SpaceRun(s, i + 1);
    }
  }

  lemma WordRun(s: string, i: nat)
    requires i <= |s|
    ensures forall k | i <= k < WordEnd(s, i) :: IsWordChar(s[k])
    decreases |s| - i
  {
    if i < |s| && IsWordChar(s[i]) {
      WordRun(s, i + 1);
    }
  }

  lemma DigitRun(s: string, i: nat)
    requires i <= |s|
    ensures forall k | i <= k < DigitEnd(s, i) :: IsDigit(s[k])
    decreases |s| - i
  {
    if i < |s| && IsDigit(s[i]) {
      DigitRun(s, i + 1);
    }
  }

  /** `IndexFrom` finds the first occurrence. */
  lemma IndexFromFirst(s: string, c: char, i: nat)
    requires i <= |s|
    ensures forall k | i <= k < |s| && (IndexFrom(s, c, i) == -1 || k < IndexFrom(s, c, i)) :: s[k] != c
    decreases |s| - i
  {
    if i < |s| && s[i] != c {
      IndexFromFirst(s, c, i + 1);
    }
  }

  /** The text `IndexFrom` skips does not hold the character. */
  lemma IndexFromSkips(s: string, c: char, i: nat)
    requires i <= |s|
    ensures IndexFrom(s, c, i) != -1 ==> c !in s[i..IndexFrom(s, c, i)]
    ensures IndexFrom(s, c, i) == -1 ==> c !in s[i..]
  {
    IndexFromFirst(s, c, i);
    var r := IndexFrom(s, c, i);
    var e := if r == -1 then |s| else r;
    assert forall j | 0 <= j < e - i :: s[i..e][j] == s[i + j];
    if r == -1 {
      assert s[i..] == s[i..e];
    }
  }

  /** `IndexFrom` finds an occurrence with none before it. */
  lemma IndexFromIs(s: string, c: char, i: nat, e: nat)
    requires i <= e < |s| && s[e] == c
    requires forall k | i <= k < e :: s[k] != c
    ensures IndexFrom(s, c, i) == e
    decreases e - i
  {
    if i < e {
      IndexFromIs(s, c, i + 1, e);
    }
  }

  /** Only white space follows the trimmed end. */
  lemma TrimmedTail(s: string, lo: nat, hi: nat)
    requires lo <= hi <= |s|
    ensures forall k | TrimmedEnd(s, lo, hi) <= k < hi :: IsSpace(s[k])
    decreases hi
  {
    if hi > lo && IsSpace(s[hi - 1]) {
      TrimmedTail(s, lo, hi - 1);
    }
  }

  /** A white-space run is exactly as long as the characters say. */
  lemma SpaceEndIs(s: string, i: nat, e: nat)
    requires i <= e <= |s|
    requires forall k :: i <= k < e ==> IsSpace(s[k])
    requires e == |s| || !IsSpace(s[e])
    ensures SpaceEnd(s, i) == e
    decreases e - i
  {
    if i < e {
      SpaceEndIs(s, i + 1, e);
    }
  }

  lemma WordEndIs(s: string, i: nat, e: nat)
    requires i <= e <= |s|
    requires forall k :: i <= k < e ==> IsWordChar(s[k])
    requires e == |s| || !IsWordChar(s[e])
    ensures WordEnd(s, i) == e
    decreases e - i
  {
    if i < e {
      WordEndIs(s, i + 1, e);
    }
  }

  lemma DigitEndIs(s: string, i: nat, e: nat)
    requires i <= e <= |s|
    requires forall k :: i <= k < e ==> IsDigit(s[k])
    requires e == |s| || !IsDigit(s[e])
    ensures DigitEnd(s, i) == e
    decreases e - i
  {
    if i < e {
      DigitEndIs(s, i + 1, e);
    }
  }

  /** End of the text once trailing white space after `lo` is dropped: the
      least `e >= lo` such that only white space follows `e` up to `hi`. */
  function TrimmedEnd(s: string, lo: nat, hi: nat): (e: nat)
    requires lo <= hi <= |s|
    ensures lo <= e <= hi
    ensures e == lo || !IsSpace(s[e - 1])
    decreases hi
  {
    if hi > lo && IsSpace(s[hi - 1]) then TrimmedEnd(s, lo, hi - 1) else hi
  }

  /** `String.prototype.trim`: the text without leading and trailing white
      space. */
  function Trim(s: string): (r: string)
    ensures r == [] || (!IsSpace(r[0]) && !IsSpace(r[|r| - 1]))
  {
    var b := SpaceEnd(s, 0);
    s[b..TrimmedEnd(s, b, |s|)]
  }

  /** Every character is white space (true of the empty string). */
  predicate IsBlank(s: string) {
    forall k | 0 <= k < |s| :: IsSpace(s[k])
  }

  /** Trimming leaves nothing exactly when the text is blank. */
  lemma TrimEmptyIffBlank(s: string)
    ensures Trim(s) == [] <==> IsBlank(s)
  {
    var b := SpaceEnd(s, 0);
    SpaceRun(s, 0);
    TrimmedTail(s, b, |s|);
    if b < |s| {
      assert TrimmedEnd(s, b, |s|) > b;
    }
  }

  /** A text is its trim with white space before and after it. */
  lemma TrimSurroundedByBlanks(s: string)
    ensures var b := SpaceEnd(s, 0);
            var e := TrimmedEnd(s, b, |s|);
            && s == s[..b] + Trim(s) + s[e..]
            && IsBlank(s[..b]) && IsBlank(s[e..])
  {
    var b := SpaceEnd(s, 0);
    var e := TrimmedEnd(s, b, |s|);
    LeadingBlanks(s);
    TrailingBlanks(s, b);
    SliceThree(s, b, e);
  }

  lemma LeadingBlanks(s: string)
    ensures IsBlank(s[..SpaceEnd(s, 0)])
  {
    var b := SpaceEnd(s, 0);
    SpaceRun(s, 0);
    forall k | 0 <= k < b
      ensures IsSpace(s[..b][k])
    {
      assert s[..b][k] == s[k];
    }
  }

  lemma TrailingBlanks(s: string, b: nat)
    requires b <= |s|
    ensures IsBlank(s[TrimmedEnd(s, b, |s|)..])
  {
    var e := TrimmedEnd(s, b, |s|);
    TrimmedTail(s, b, |s|);
    forall k | 0 <= k < |s| - e
      ensures IsSpace(s[e..][k])
    {
      assert s[e..][k] == s[e + k];
    }
  }

  lemma SliceThree<T>(s: seq<T>, b: nat, e: nat)
    requires b <= e <= |s|
    ensures s == s[..b] + s[b..e] + s[e..]
  {
  }

  /** Text that neither starts nor ends with white space is its own trim. */
  lemma TrimKeepsPlain(s: string)
    requires s == [] || (!IsSpace(s[0]) && !IsSpace(s[|s| - 1]))
    ensures Trim(s) == s
  {
    if s != [] {
      assert SpaceEnd(s, 0) == 0;
      assert TrimmedEnd(s, 0, |s|) == |s|;
    }
  }

  /** Upper-cases an ASCII letter; every other character is returned as is. */
  function ToUpper(c: char): (u: char)
    ensures IsLower(c) ==> IsUpper(u) && u as int == c as int - 32
    ensures !IsLower(c) ==> u == c
  {
    if IsLower(c) then (c as int - 32) as char else c
  }

  /** Upper-cases every ASCII letter of a text. */
  function UpperCase(s: string): (u: string)
    ensures |u| == |s| && forall i | 0 <= i < |s| :: u[i] == ToUpper(s[i])
  {
    seq(|s|, i requires 0 <= i < |s| => ToUpper(s[i]))
  }

  /** Upper-casing twice is upper-casing once. */
  lemma UpperCaseIdempotent(s: string)
    ensures UpperCase(UpperCase(s)) == UpperCase(s)
  {
    var u := UpperCase(s);
    forall i | 0 <= i < |s|
      ensures UpperCase(u)[i] == u[i]
    {
      assert !IsLower(u[i]);
    }
  }

  /** Decimal value of a string of digits. */
  function DigitsValue(s: string): (n: nat)
    requires forall k :: 0 <= k < |s| ==> IsDigit(s[k])
  {
    if s == [] then 0
    else
      assert IsDigit(s[|s| - 1]);
      10 * DigitsValue(s[..|s| - 1]) + (s[|s| - 1] as int - '0' as int)
  }

  function Pow10(n: nat): (p: nat)
    ensures p >= 1
  {
    if n == 0 then 1 else 10 * Pow10(n - 1)
  }
}
