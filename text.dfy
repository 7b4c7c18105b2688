/**
 * String helpers that stand in for the regular expressions and the `strip`
 * calls of the controllers and helpers.  Strings are sequences of characters;
 * `\d` in the source's regexes is an ASCII digit.
 */
module Text {
  import opened Common

  predicate IsDigit(c: char) {
    '0' <= c <= '9'
  }

  predicate AllDigits(s: string) {
    forall i :: 0 <= i < |s| ==> IsDigit(s[i])
  }

  predicate StartsWith(s: string, prefix: string) {
    |prefix| <= |s| && s[..|prefix|] == prefix
  }

  predicate EndsWith(s: string, suffix: string) {
    |suffix| <= |s| && s[|s| - |suffix|..] == suffix
  }

  /** `word` occurs in `s` starting at index `i`. */
  predicate OccursAt(s: string, word: string, i: int) {
    0 <= i && i + |word| <= |s| && s[i..i + |word|] == word
  }

  /** Length of the longest run of digits that ends `s`. */
  function DigitSuffixLength(s: string): (k: nat)
    ensures k <= |s|
    ensures AllDigits(s[|s| - k..])
    ensures k < |s| ==> !IsDigit(s[|s| - k - 1])
  {
    if s == [] || !IsDigit(s[|s| - 1]) then 0
    else
      var k' := DigitSuffixLength(s[..|s| - 1]);
      assert s[|s| - (k' + 1)..] == s[..|s| - 1][|s| - 1 - k'..] + [s[|s| - 1]];
      k' + 1
  }

  /** A digit run that ends `s` and is not preceded by a digit is the longest such run. */
  lemma {:induction false} DigitSuffixIsMaximal(s: string, d: string)
    requires AllDigits(d) && EndsWith(s, d)
    requires |d| < |s| ==> !IsDigit(s[|s| - |d| - 1])
    ensures DigitSuffixLength(s) == |d|
  {
    if d != [] {
      var s', d' := s[..|s| - 1], d[..|d| - 1];
      assert s'[|s'| - |d'|..] == d';
      DigitSuffixIsMaximal(s', d');
    }
  }

  /** `s` ends with `prefix` immediately followed by a non-empty run of digits `d`. */
  predicate EndsWithId(s: string, prefix: string, d: string) {
    |d| > 0 && AllDigits(d) && EndsWith(s, prefix + d)
  }

  /** A digit run after `prefix` at the end of `s` is the longest digit suffix of `s`. */
  lemma {:induction false} EndsWithIdIsDigitSuffix(s: string, prefix: string, d: string)
    requires prefix != [] && !IsDigit(prefix[|prefix| - 1])
    requires EndsWithId(s, prefix, d)
    ensures DigitSuffixLength(s) == |d|
    ensures EndsWith(s[..|s| - |d|], prefix)
  {
    var t := s[|s| - |prefix| - |d|..];
    assert t == prefix + d;
    assert t[|prefix|..] == d && t[|prefix| - 1] == prefix[|prefix| - 1];
    assert s[|s| - |d|..] == t[|prefix|..];
    assert s[|s| - |d| - 1] == t[|prefix| - 1];
    DigitSuffixIsMaximal(s, d);
    assert s[..|s| - |d|][|s| - |d| - |prefix|..] == t[..|prefix|];
  }

  lemma {:induction false} DigitSuffixAfterPrefix(s: string, prefix: string, k: nat)
    requires k == DigitSuffixLength(s) && k > 0
    requires EndsWith(s[..|s| - k], prefix)
    ensures EndsWithId(s, prefix, s[|s| - k..])
  {
    var head, d := s[..|s| - k], s[|s| - k..];
    assert s == head + d;
    assert head[|head| - |prefix|..] == prefix;
    assert s[|s| - |prefix| - k..] == head[|head| - |prefix|..] + d;
  }

  /**
   * The digits `d` when `s` ends with `prefix` followed by digits: the shape
   * `\A.*<prefix>(\d+)\Z`.  The prefix must end in a non-digit, which makes the
   * captured run unique.
   */
  function IdAfter(s: string, prefix: string): (r: Option<string>)
    requires prefix != [] && !IsDigit(prefix[|prefix| - 1])
    ensures r.Some? ==> EndsWithId(s, prefix, r.value)
    ensures forall d :: EndsWithId(s, prefix, d) ==> r == Some(d)
  {
    var k := DigitSuffixLength(s);
    var r := if k > 0 && EndsWith(s[..|s| - k], prefix) then Some(s[|s| - k..]) else None;
    assert r.Some? ==> EndsWithId(s, prefix, r.value) by {
      if r.Some? { DigitSuffixAfterPrefix(s, prefix, k); }
    }
    assert forall d :: EndsWithId(s, prefix, d) ==> r == Some(d) by {
      forall d | EndsWithId(s, prefix, d) ensures r == Some(d) {
        EndsWithIdIsDigitSuffix(s, prefix, d);
        assert s[|s| - k..] == d;
      }
    }
    r
  }

  /** Whitespace as Ruby's `String#strip` removes it: NUL, tab, LF, VT, FF, CR and space. */
  predicate IsStripped(c: char) {
    c == '\0' || c == '\t' || c == '\n' || c == '\U{0B}' || c == '\U{0C}' || c == '\r' || c == ' '
  }

  /** The string holds a character that `strip` keeps. */
  predicate HasContent(s: string) {
    exists i :: 0 <= i < |s| && !IsStripped(s[i])
  }

  function LeftStrip(s: string): (r: string)
    ensures |r| <= |s| && EndsWith(s, r)
    ensures r != [] ==> !IsStripped(r[0])
    ensures forall i :: 0 <= i < |s| - |r| ==> IsStripped(s[i])
  {
    if s != [] && IsStripped(s[0]) then LeftStrip(s[1..]) else s
  }

  function RightStrip(s: string): (r: string)
    ensures |r| <= |s| && StartsWith(s, r)
    ensures r != [] ==> !IsStripped(r[|r| - 1])
    ensures forall i :: |r| <= i < |s| ==> IsStripped(s[i])
  {
    if s != [] && IsStripped(s[|s| - 1]) then RightStrip(s[..|s| - 1]) else s
  }

  /** Ruby's `String#strip`. */
  function Strip(s: string): string {
    RightStrip(LeftStrip(s))
  }

  /** `s.strip != ""` exactly when `s` holds a character other than the stripped whitespace. */
  lemma StripEmptyIffBlank(s: string)
    ensures Strip(s) != "" <==> HasContent(s)
  {
    var l := LeftStrip(s);
    var r := RightStrip(l);
    var off := |s| - |l|;
    assert l == s[off..];
    if HasContent(s) {
      var i :| 0 <= i < |s| && !IsStripped(s[i]);
      assert !IsStripped(l[i - off]);
    }
    if r != [] {
      assert r[|r| - 1] == l[|r| - 1] == s[off + |r| - 1];
    }
  }
}
