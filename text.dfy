/** Character classes and string helpers shared by the models of the four
    scripts.  Strings are sequences of Unicode code points, as Python's `str`. */
module Text {

  /** `[0-9]`, and what `\d` matches in the model (ASCII digits only). */
  predicate IsDigit(c: char) { '0' <= c <= '9' }

  /** Python's `\s` on `str` patterns (and `str.isspace`): the ASCII controls
      TAB..CR, the separators U+001C..U+001F, SPACE, and the Unicode spaces. */
  predicate IsSpace(c: char)
  {
    var n := c as int;
    (9 <= n <= 13) || (0x1C <= n <= 0x20) || n == 0x85 || n == 0xA0 || n == 0x1680
    || (0x2000 <= n <= 0x200A) || n == 0x2028 || n == 0x2029 || n == 0x202F
    || n == 0x205F || n == 0x3000
  }

  /** What `.` matches without DOTALL: anything but a line feed. */
  predicate NotNewline(c: char) { c != '\n' }

  predicate StartsWith(s: string, p: string) { |p| <= |s| && s[..|p|] == p }

  /** The longest prefix of `s` whose characters all satisfy `p`: what a greedy
      `[class]*` matches when nothing after it can make it give characters back. */
  function Span(s: string, p: char -> bool): (r: string)
    ensures |r| <= |s| && r == s[..|r|]
    ensures forall i :: 0 <= i < |r| ==> p(r[i])
    ensures |r| < |s| ==> !p(s[|r|])
  {
    if s == [] || !p(s[0]) then [] else [s[0]] + Span(s[1..], p)
  }

  /** Characters after `s1` that do not continue the run leave the span unchanged. */
  lemma {:induction false} SpanAppend(s1: string, s2: string, p: char -> bool)
    requires s2 == [] || !p(s2[0])
    ensures Span(s1 + s2, p) == Span(s1, p)
  {
    if s1 == [] {
    } else if p(s1[0]) {
      assert (s1 + s2)[1..] == s1[1..] + s2;
      SpanAppend(s1[1..], s2, p);
    }
  }

  /** The rest of the current line: what a greedy `.*` matches. */
  function RestOfLine(s: string): (r: string)
    ensures r <= s && '\n' !in r
    ensures |r| == |s| || s[|r|] == '\n'
  {
    var r := Span(s, NotNewline);
    assert forall i :: 0 <= i < |r| ==> r[i] != '\n';
    r
  }

  lemma RestOfLineSplit(s1: string, s2: string)
    ensures RestOfLine(s1 + ['\n'] + s2) == RestOfLine(s1)
  {
    assert s1 + ['\n'] + s2 == s1 + (['\n'] + s2);
    SpanAppend(s1, ['\n'] + s2, NotNewline);
  }

  /** On a line without line feed, the rest of the line is all of it. */
  lemma {:induction false} RestOfLineWhole(s: string)
    requires '\n' !in s
    ensures RestOfLine(s) == s
  {
    assert forall i :: 0 <= i < |s| ==> s[i] != '\n';
  }

  /** A string starts with each of its prefixes, and what follows is the rest. */
  lemma PrefixThenRest(a: string, b: string)
    ensures StartsWith(a + b, a) && (a + b)[|a|..] == b
  {
    assert (a + b)[..|a|] == a;
  }

  /** A literal without line feed cannot be found across one: the test
      `StartsWith` gives the same answer whatever follows a line feed. */
  lemma StartsWithSplit(s1: string, s2: string, lit: string)
    requires '\n' !in lit
    ensures StartsWith(s1 + ['\n'] + s2, lit) <==> StartsWith(s1, lit)
  {
    var t := s1 + ['\n'] + s2;
    if |lit| <= |s1| {
      assert t[..|lit|] == s1[..|lit|];
    } else if |lit| <= |t| {
      assert t[..|lit|][|s1|] == '\n';
      assert lit[|s1|] in lit;
    }
  }

  /** Python's `lit in s`. */
  function Contains(s: string, lit: string): (r: bool)
    ensures r <==> exists k :: 0 <= k <= |s| && StartsWith(s[k..], lit)
  {
    if StartsWith(s, lit) then
      assert StartsWith(s[0..], lit);
      true
    else if s == [] then
      false
    else
      var r := Contains(s[1..], lit);
      assert forall k :: 1 <= k <= |s| ==> s[k..] == s[1..][k - 1..];
      if r then
        var k :| 0 <= k <= |s| - 1 && StartsWith(s[1..][k..], lit);
        assert s[k + 1..] == s[1..][k..];
        true
      else
        false
  }

  /** Python's `s.replace(a, b)` for one-character `a` and `b`. */
  function Replace(s: string, a: char, b: char): (r: string)
    ensures |r| == |s|
    ensures forall i :: 0 <= i < |s| ==> r[i] == if s[i] == a then b else s[i]
  {
    if s == [] then [] else [if s[0] == a then b else s[0]] + Replace(s[1..], a, b)
  }

  /** Replacing in two pieces is replacing in their concatenation. */
  lemma ReplaceAppend(x: string, y: string, a: char, b: char)
    ensures Replace(x + y, a, b) == Replace(x, a, b) + Replace(y, a, b)
  {
    var l, r := Replace(x + y, a, b), Replace(x, a, b) + Replace(y, a, b);
    assert forall i :: 0 <= i < |l| ==> l[i] == r[i];
  }

  /** A text without the character is left as it is. */
  lemma ReplaceAbsent(s: string, a: char, b: char)
    requires a !in s
    ensures Replace(s, a, b) == s
  {
    var r := Replace(s, a, b);
    assert forall i :: 0 <= i < |r| ==> r[i] == s[i];
  }

  lemma ReplaceRemoves(s: string, a: char, b: char)
    requires a != b
    ensures a !in Replace(s, a, b)
  {
    var r := Replace(s, a, b);
    assert forall i :: 0 <= i < |r| ==> r[i] != a;
  }

  /** The value of a string of decimal digits, as Python's `int(...)`. */
  function DigitsValue(s: string): (n: nat)
    requires forall i :: 0 <= i < |s| ==> IsDigit(s[i])
    decreases |s|
  {
    if s == [] then 0
    else
      assert IsDigit(s[|s| - 1]);
      10 * DigitsValue(s[..|s| - 1]) + (s[|s| - 1] as int - '0' as int)
  }

  /** Python's `str(n)` for a natural number. */
  function NatToString(n: nat): (s: string)
    ensures |s| > 0 && forall i :: 0 <= i < |s| ==> IsDigit(s[i])
    ensures |s| > 1 ==> s[0] != '0'
  {
    if n < 10 then [('0' as int + n) as char]
    else NatToString(n / 10) + [('0' as int + n % 10) as char]
  }

  lemma {:induction false} DigitsValueOfNatToString(n: nat)
    ensures DigitsValue(NatToString(n)) == n
  {
    var s := NatToString(n);
    if n >= 10 {
      DigitsValueOfNatToString(n / 10);
      assert s[..|s| - 1] == NatToString(n / 10);
    }
  }

  /** Python's `str(i)` for an integer. */
  function IntToString(i: int): (s: string)
    ensures |s| > 0
    ensures s[0] == '-' <==> i < 0
  {
    if i < 0 then "-" + NatToString(-i) else NatToString(i)
  }
}
