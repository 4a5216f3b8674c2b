/** `parse_buf` (astroprobe.py): the solver's free-text report parsed by a
    fixed set of patterns.  Each pattern is a hand-written matcher anchored at
    the start of a suffix of the report; `re.search` is the leftmost position
    where the matcher succeeds and `re.findall` collects non-overlapping
    matches from left to right. */
module ReportParser {
  import opened Outcome
  import opened Text

  /** `[0-9.]` */
  predicate IsNumberChar(c: char) { IsDigit(c) || c == '.' }

  /** `[0-9.-]` */
  predicate IsSignedNumberChar(c: char) { IsDigit(c) || c == '.' || c == '-' }

  /** `[a-z0-9-]` */
  predicate IsIndexChar(c: char) { ('a' <= c <= 'z') || IsDigit(c) || c == '-' }

  /** `re.search(pattern, s)` for a pattern whose anchored matcher is `m`:
      the result of `m` at the first position (0 to `|s|`) where it succeeds. */
  function Search<T(==)>(s: string, m: string -> Option<T>): (r: Option<T>)
    ensures r.None? <==> forall k :: 0 <= k <= |s| ==> m(s[k..]).None?
    ensures r.Some? ==> exists k :: 0 <= k <= |s| && m(s[k..]) == r
                          && forall j :: 0 <= j < k ==> m(s[j..]).None?
    decreases |s|
  {
    if m(s).Some? then
      assert s[0..] == s;
      m(s)
    else if s == [] then
      None
    else
      var r := Search(s[1..], m);
      assert forall k :: 1 <= k <= |s| ==> s[k..] == s[1..][k - 1..];
      if r.Some? then
        var k :| 0 <= k <= |s| - 1 && m(s[1..][k..]) == r
                 && forall j :: 0 <= j < k ==> m(s[1..][j..]).None?;
        assert m(s[k + 1..]) == r;
        assert forall j :: 1 <= j < k + 1 ==> m(s[j..]).None? by {
          forall j | 1 <= j < k + 1 ensures m(s[j..]).None? {
            assert s[j..] == s[1..][j - 1..];
          }
        }
        r
      else
        assert forall k :: 0 <= k <= |s| - 1 ==> m(s[1..][k..]).None?;
        r
  }

  /** A run of characters followed by something that does not continue it is
      exactly what a greedy `[class]+` captures there. */
  lemma SpanExact(run: string, rest: string, p: char -> bool)
    requires forall i :: 0 <= i < |run| ==> p(run[i])
    requires rest == [] || !p(rest[0])
    ensures Span(run + rest, p) == run
  {
    SpanAppend(run, rest, p);
    SpanAll(run, p);
  }

  lemma {:induction false} SpanAll(run: string, p: char -> bool)
    requires forall i :: 0 <= i < |run| ==> p(run[i])
    ensures Span(run, p) == run
  {
    if run != [] {
      SpanAll(run[1..], p);
    }
  }

  // ---------------------------------------------------------------------
  // The three mandatory first-match patterns.

  const FieldSizeLead := "Field size: "
  const CenterLead := "Field center: (RA,Dec) = ("
  const ScaleLead := "pixel scale "

  /** `Field size: ([0-9.]+) x ([0-9.]+)` anchored at the start of `t`. */
  function FieldSizeAt(t: string): Option<(string, string)>
  {
    if !StartsWith(t, FieldSizeLead) then None
    else
      var w := Span(t[|FieldSizeLead|..], IsNumberChar);
      var u := t[|FieldSizeLead| + |w|..];
      if w == [] || !StartsWith(u, " x ") then None
      else
        var h := Span(u[3..], IsNumberChar);
        if h == [] then None else Some((w, h))
  }

  /** `Field center: \(RA,Dec\) = \(([0-9.-]+), ([0-9.-]+)\) deg.` anchored at
      the start of `t`. */
  function FieldCenterAt(t: string): Option<(string, string)>
  {
    if StartsWith(t, CenterLead) then CenterAfterLead(t[|CenterLead|..]) else None
  }

  /** `([0-9.-]+), ` and what follows it. */
  function CenterAfterLead(x: string): Option<(string, string)>
  {
    var ra := Span(x, IsSignedNumberChar);
    var u := x[|ra|..];
    if ra == [] || !StartsWith(u, ", ") then None
    else
      match DecAndTail(u[2..])
      case Some(dec) => Some((ra, dec))
      case None => None
  }

  /** `([0-9.-]+)\) deg.` where the final `.` is any character but a line feed. */
  function DecAndTail(z: string): Option<string>
  {
    var dec := Span(z, IsSignedNumberChar);
    var v := z[|dec|..];
    if dec != [] && StartsWith(v, ") deg") && |v| > 5 && v[5] != '\n' then Some(dec) else None
  }

  /** `pixel scale ([0-9.]+) arcsec/pix` anchored at the start of `t`. */
  function PixelScaleAt(t: string): Option<string>
  {
    if !StartsWith(t, ScaleLead) then None
    else
      var n := Span(t[|ScaleLead|..], IsNumberChar);
      if n != [] && StartsWith(t[|ScaleLead| + |n|..], " arcsec/pix") then Some(n) else None
  }

  /** The report line a solver writes for a field of `w` by `h`. */
  function FieldSizeLine(w: string, h: string): string
  {
    FieldSizeLead + (w + (" x " + h))
  }

  /** Reading back a field size line gives the two numbers that were written,
      whatever follows them that is not part of a number. */
  lemma FieldSizeRoundTrip(w: string, h: string, rest: string)
    requires w != [] && forall i :: 0 <= i < |w| ==> IsNumberChar(w[i])
    requires h != [] && forall i :: 0 <= i < |h| ==> IsNumberChar(h[i])
    requires rest == [] || !IsNumberChar(rest[0])
    ensures FieldSizeAt(FieldSizeLine(w, h) + rest) == Some((w, h))
  {
    var z := h + rest;
    var y := " x " + z;
    var x := w + y;
    assert FieldSizeLine(w, h) + rest == FieldSizeLead + x;
    var t := FieldSizeLead + x;
    PrefixThenRest(FieldSizeLead, x);
    SpanExact(w, y, IsNumberChar);
    PrefixThenRest(w, y);
    assert t[|FieldSizeLead| + |w|..] == y;
    PrefixThenRest(" x ", z);
    SpanExact(h, rest, IsNumberChar);
  }

  /** The report line for a field centred at (`ra`, `dec`). */
  function FieldCenterLine(ra: string, dec: string): string
  {
    CenterLead + (ra + (", " + (dec + ") deg.")))
  }

  lemma FieldCenterRoundTrip(ra: string, dec: string, rest: string)
    requires ra != [] && forall i :: 0 <= i < |ra| ==> IsSignedNumberChar(ra[i])
    requires dec != [] && forall i :: 0 <= i < |dec| ==> IsSignedNumberChar(dec[i])
    ensures FieldCenterAt(FieldCenterLine(ra, dec) + rest) == Some((ra, dec))
  {
    var z := dec + (") deg." + rest);
    var x := ra + (", " + z);
    assert FieldCenterLine(ra, dec) + rest == CenterLead + x;
    PrefixThenRest(CenterLead, x);
    DecAndTailRoundTrip(dec, rest);
    SpanExact(ra, ", " + z, IsSignedNumberChar);
    PrefixThenRest(ra, ", " + z);
    PrefixThenRest(", ", z);
  }

  lemma DecAndTailRoundTrip(dec: string, rest: string)
    requires dec != [] && forall i :: 0 <= i < |dec| ==> IsSignedNumberChar(dec[i])
    ensures DecAndTail(dec + (") deg." + rest)) == Some(dec)
  {
    var tail := ") deg." + rest;
    SpanExact(dec, tail, IsSignedNumberChar);
    PrefixThenRest(dec, tail);
    assert tail == ") deg" + ("." + rest);
    PrefixThenRest(") deg", "." + rest);
    assert tail[5] == '.';
  }

  /** The report line for a scale of `n` arcseconds per pixel. */
  function PixelScaleLine(n: string): string
  {
    ScaleLead + (n + " arcsec/pix")
  }

  lemma PixelScaleRoundTrip(n: string, rest: string)
    requires n != [] && forall i :: 0 <= i < |n| ==> IsNumberChar(n[i])
    ensures PixelScaleAt(PixelScaleLine(n) + rest) == Some(n)
  {
    var y := " arcsec/pix" + rest;
    var x := n + y;
    assert PixelScaleLine(n) + rest == ScaleLead + x;
    var t := ScaleLead + x;
    PrefixThenRest(ScaleLead, x);
    SpanExact(n, y, IsNumberChar);
    PrefixThenRest(n, y);
    assert t[|ScaleLead| + |n|..] == y;
    PrefixThenRest(" arcsec/pix", rest);
  }

  // ---------------------------------------------------------------------
  // The optional solved-with-index pattern
  // `Field \d+: solved with index index-([a-z0-9-]+).\S+endian.fits.`

  const IndexLead := "Field "
  const IndexMiddle := ": solved with index index-"

  /** `endian.fits.` where each `.` is any character but a line feed. */
  predicate EndianFits(w: string)
  {
    StartsWith(w, "endian") && |w| >= 12 && w[6] != '\n' && w[7..11] == "fits" && w[11] != '\n'
  }

  /** `\S+endian.fits.`: one or more non-space characters, then the tail. */
  predicate NonSpaceThenEndian(v: string)
    decreases |v|
  {
    |v| > 0 && !IsSpace(v[0]) && (EndianFits(v[1..]) || NonSpaceThenEndian(v[1..]))
  }

  /** What must follow the captured index name: `.\S+endian.fits.` */
  predicate IndexTail(u: string)
  {
    |u| > 0 && u[0] != '\n' && NonSpaceThenEndian(u[1..])
  }

  /** The greedy group `([a-z0-9-]+)` gives back characters until the rest of
      the pattern matches: the longest prefix of at most `n` characters after
      which the tail matches. */
  function LongestGroup(v: string, n: nat): (r: Option<string>)
    requires n <= |v|
    ensures r.Some? ==> 1 <= |r.value| <= n && r.value == v[..|r.value|]
                        && IndexTail(v[|r.value|..])
                        && forall m :: |r.value| < m <= n ==> !IndexTail(v[m..])
    ensures r.None? ==> forall m :: 1 <= m <= n ==> !IndexTail(v[m..])
  {
    if n == 0 then None
    else if IndexTail(v[n..]) then Some(v[..n])
    else LongestGroup(v, n - 1)
  }

  /** The index pattern anchored at the start of `t`: the captured index name. */
  function IndexAt(t: string): Option<string>
  {
    if StartsWith(t, IndexLead) then IndexAfterField(t[|IndexLead|..]) else None
  }

  /** `\d+: solved with index index-` and what follows it. */
  function IndexAfterField(x: string): Option<string>
  {
    var d := Span(x, IsDigit);
    var u := x[|d|..];
    if d == [] || !StartsWith(u, IndexMiddle) then None else IndexName(u[|IndexMiddle|..])
  }

  /** `([a-z0-9-]+).\S+endian.fits.`: the captured index name. */
  function IndexName(v: string): (r: Option<string>)
    ensures r.Some? ==> r.value != [] && forall i :: 0 <= i < |r.value| ==> IsIndexChar(r.value[i])
  {
    var g := Span(v, IsIndexChar);
    var r := LongestGroup(v, |g|);
    assert r.Some? ==> r.value == g[..|r.value|];
    r
  }

  /** `\S+endian.fits.` matches a non-empty run of non-space characters
      followed by the tail. */
  lemma {:induction false} NonSpaceThenEndianRun(x: string, rest: string)
    requires x != [] && forall i :: 0 <= i < |x| ==> !IsSpace(x[i])
    ensures NonSpaceThenEndian(x + ("endian.fits." + rest))
    decreases |x|
  {
    var w := "endian.fits." + rest;
    var v := x + w;
    assert v[1..] == x[1..] + w;
    if |x| == 1 {
      EndianFitsLine(rest);
      assert v[1..] == w;
    } else {
      NonSpaceThenEndianRun(x[1..], rest);
    }
  }

  lemma EndianFitsLine(rest: string)
    ensures EndianFits("endian.fits." + rest)
  {
    var w := "endian.fits." + rest;
    PrefixThenRest("endian", ".fits." + rest);
    assert w == "endian" + (".fits." + rest);
    assert w[6] == '.' && w[7..11] == "fits" && w[11] == '.';
  }

  /** A solved-with-index line written as `Field <d>: solved with index
      index-<name>.<x>endian.fits.` yields `name`: the `.` after the name ends
      the greedy group, so it need not give anything back. */
  lemma IndexRoundTrip(d: string, name: string, x: string, rest: string)
    requires d != [] && forall i :: 0 <= i < |d| ==> IsDigit(d[i])
    requires name != [] && forall i :: 0 <= i < |name| ==> IsIndexChar(name[i])
    requires x != [] && forall i :: 0 <= i < |x| ==> !IsSpace(x[i])
    ensures IndexAt(IndexLead + (d + (IndexMiddle + (name + ("." + (x + ("endian.fits." + rest)))))))
            == Some(name)
  {
    var v := name + ("." + (x + ("endian.fits." + rest)));
    var u := IndexMiddle + v;
    PrefixThenRest(IndexLead, d + u);
    SpanExact(d, u, IsDigit);
    PrefixThenRest(d, u);
    PrefixThenRest(IndexMiddle, v);
    IndexNameRoundTrip(name, x, rest);
  }

  lemma IndexNameRoundTrip(name: string, x: string, rest: string)
    requires name != [] && forall i :: 0 <= i < |name| ==> IsIndexChar(name[i])
    requires x != [] && forall i :: 0 <= i < |x| ==> !IsSpace(x[i])
    ensures IndexName(name + ("." + (x + ("endian.fits." + rest)))) == Some(name)
  {
    var tail := "." + (x + ("endian.fits." + rest));
    var v := name + tail;
    SpanExact(name, tail, IsIndexChar);
    PrefixThenRest(name, tail);
    NonSpaceThenEndianRun(x, rest);
    assert tail[1..] == x + ("endian.fits." + rest);
    assert IndexTail(v[|name|..]);
  }

  // ---------------------------------------------------------------------
  // The four find-all patterns: each captures to the end of the line.

  /** `[Tt]he constellation (.+)`, `The star (.+)`, `(IC \d+.*)`, `(NGC \d+.*)`. */
  datatype LineRule = Constellation | Star | Ic | Ngc

  /** Where the capture starts, relative to the start of the match. */
  function HeadLen(rule: LineRule): nat
  {
    match rule
    case Constellation => 18
    case Star => 9
    case Ic => 0
    case Ngc => 0
  }

  /** The part of the pattern before the capture that runs to the end of the line. */
  predicate Lead(rule: LineRule, t: string)
  {
    match rule
    case Constellation => StartsWith(t, "The constellation ") || StartsWith(t, "the constellation ")
    case Star => StartsWith(t, "The star ")
    case Ic => StartsWith(t, "IC ") && |t| > 3 && IsDigit(t[3])
    case Ngc => StartsWith(t, "NGC ") && |t| > 4 && IsDigit(t[4])
  }

  /** The rule anchored at the start of `t`: the rest-of-line capture, which
      must not be empty (`.+`; for `IC`/`NGC` it holds the lead itself). */
  function LineMatch(rule: LineRule, t: string): (r: Option<string>)
    ensures r.Some? ==> 0 < HeadLen(rule) + |r.value| <= |t| && '\n' !in r.value
    ensures r.Some? ==> r.value == RestOfLine(t[HeadLen(rule)..])
  {
    var h := HeadLen(rule);
    if Lead(rule, t) && h <= |t| && RestOfLine(t[h..]) != [] then Some(RestOfLine(t[h..]))
    else None
  }

  /** The anchored matcher of a rule, as a value `findall` can be run with. */
  function Matcher(rule: LineRule): string -> Option<string>
  {
    t => LineMatch(rule, t)
  }

  /** `re.findall(pattern, t)` for one of the four rules. */
  function FindAll(rule: LineRule, t: string): seq<string>
  {
    MatcherProperties(rule);
    Scan(Matcher(rule), HeadLen(rule), t)
  }

  // What makes these four patterns special: a match starts at most `h`
  // characters before its capture, never reads past a line feed, and on a
  // line without line feed it runs to the end of the line.

  ghost predicate Consumes(m: string -> Option<string>, h: nat)
  {
    forall t :: m(t).Some? ==> 0 < h + |m(t).value| <= |t|
  }

  ghost predicate LineLocal(m: string -> Option<string>)
  {
    forall s1, s2 :: m(s1 + ['\n'] + s2) == m(s1)
  }

  ghost predicate ToLineEnd(m: string -> Option<string>, h: nat)
  {
    forall t :: m(t).Some? && '\n' !in t ==> h + |m(t).value| == |t|
  }

  /** What `findall` records at the start of `t`. */
  function Found(m: string -> Option<string>, t: string): seq<string>
  {
    match m(t)
    case Some(c) => [c]
    case None => []
  }

  /** How far the scan moves on from the start of `t`: past the match, or one
      character when there is none. */
  function Skip(m: string -> Option<string>, h: nat, t: string): (n: nat)
    requires Consumes(m, h) && t != []
    ensures 0 < n <= |t|
  {
    match m(t)
    case Some(c) => h + |c|
    case None => 1
  }

  /** The `findall` scan: after a match it resumes where the match ended. */
  function Scan(m: string -> Option<string>, h: nat, t: string): seq<string>
    requires Consumes(m, h)
    decreases |t|
  {
    if t == [] then [] else Found(m, t) + Scan(m, h, t[Skip(m, h, t)..])
  }

  lemma LeadSplit(rule: LineRule, s1: string, s2: string)
    ensures Lead(rule, s1 + ['\n'] + s2) <==> Lead(rule, s1)
    ensures Lead(rule, s1) ==> HeadLen(rule) <= |s1|
  {
    var t := s1 + ['\n'] + s2;
    StartsWithSplit(s1, s2, "The constellation ");
    StartsWithSplit(s1, s2, "the constellation ");
    StartsWithSplit(s1, s2, "The star ");
    StartsWithSplit(s1, s2, "IC ");
    StartsWithSplit(s1, s2, "NGC ");
    if |s1| > 4 {
      assert t[3] == s1[3] && t[4] == s1[4];
    } else if |s1| == 4 {
      assert t[3] == s1[3] && t[4] == '\n';
    } else if |s1| == 3 {
      assert t[3] == '\n';
    }
  }

  /** A match never reaches across a line feed. */
  lemma LineMatchSplit(rule: LineRule, s1: string, s2: string)
    ensures LineMatch(rule, s1 + ['\n'] + s2) == LineMatch(rule, s1)
  {
    LeadSplit(rule, s1, s2);
    var h := HeadLen(rule);
    if Lead(rule, s1) {
      assert (s1 + ['\n'] + s2)[h..] == s1[h..] + ['\n'] + s2;
      RestOfLineSplit(s1[h..], s2);
    }
  }

  lemma MatcherProperties(rule: LineRule)
    ensures Consumes(Matcher(rule), HeadLen(rule))
    ensures LineLocal(Matcher(rule))
    ensures ToLineEnd(Matcher(rule), HeadLen(rule))
  {
    var m, h := Matcher(rule), HeadLen(rule);
    forall s1, s2 ensures m(s1 + ['\n'] + s2) == m(s1) {
      LineMatchSplit(rule, s1, s2);
    }
    forall t | m(t).Some? && '\n' !in t ensures h + |m(t).value| == |t| {
      assert '\n' !in t[h..] by {
        forall i | 0 <= i < |t[h..]| ensures t[h..][i] != '\n' {
          assert t[h..][i] == t[h + i];
        }
      }
      RestOfLineWhole(t[h..]);
    }
  }

  /** The matches in two lines are those of the first line followed by those
      of the second: nothing is lost, merged or reordered at a line feed. */
  lemma {:induction false} ScanSplit(m: string -> Option<string>, h: nat, s1: string, s2: string)
    requires Consumes(m, h) && LineLocal(m)
    ensures Scan(m, h, s1 + ['\n'] + s2) == Scan(m, h, s1) + Scan(m, h, s2)
    decreases |s1|
  {
    var t := s1 + ['\n'] + s2;
    assert m(t) == m(s1);
    if s1 == [] {
      assert t == ['\n'] + s2 && t[1..] == s2;
      assert m([]).None?;
    } else {
      var n := Skip(m, h, s1);
      assert t[n..] == s1[n..] + ['\n'] + s2 by {
        assert t == s1 + (['\n'] + s2);
        SliceAppend(s1, ['\n'] + s2, n);
      }
      ScanSplit(m, h, s1[n..], s2);
    }
  }

  lemma SliceAppend(a: string, b: string, n: nat)
    requires n <= |a|
    ensures (a + b)[n..] == a[n..] + b
  {
  }

  /** On one line the captures are at most one: that of the leftmost match. */
  lemma {:induction false} ScanLine(m: string -> Option<string>, h: nat, line: string)
    requires Consumes(m, h) && ToLineEnd(m, h)
    requires '\n' !in line
    ensures Scan(m, h, line) == FirstInLine(m, line)
    decreases |line|
  {
    if line != [] && m(line).None? {
      assert '\n' !in line[1..] by {
        forall i | 0 <= i < |line[1..]| ensures line[1..][i] != '\n' {
          assert line[1..][i] == line[i + 1];
        }
      }
      ScanLine(m, h, line[1..]);
    }
  }

  /** `s.split("\n")`. */
  function Lines(s: string): (ls: seq<string>)
    ensures forall i :: 0 <= i < |ls| ==> '\n' !in ls[i]
    decreases |s|
  {
    var line := RestOfLine(s);
    if |line| == |s| then [s] else [line] + Lines(s[|line| + 1..])
  }

  /** The capture of the leftmost match in a line, if it has one. */
  function FirstInLine(m: string -> Option<string>, line: string): seq<string>
  {
    match Search(line, m)
    case Some(c) => [c]
    case None => []
  }

  function PerLine(m: string -> Option<string>, ls: seq<string>): seq<string>
  {
    if ls == [] then [] else FirstInLine(m, ls[0]) + PerLine(m, ls[1..])
  }

  lemma {:induction false} ScanByLines(m: string -> Option<string>, h: nat, s: string)
    requires Consumes(m, h) && LineLocal(m) && ToLineEnd(m, h)
    ensures Scan(m, h, s) == PerLine(m, Lines(s))
    decreases |s|
  {
    var line := RestOfLine(s);
    if |line| == |s| {
      assert line == s;
      ScanLine(m, h, s);
      assert Lines(s) == [s];
      assert [s][1..] == [];
    } else {
      var rest := s[|line| + 1..];
      assert s == line + ['\n'] + rest by {
        assert s[..|line|] == line;
      }
      ScanSplit(m, h, line, rest);
      ScanLine(m, h, line);
      ScanByLines(m, h, rest);
      assert Lines(s)[1..] == Lines(rest);
    }
  }

  /** `findall` on the four rules yields, line by line in text order, the
      capture of the leftmost match of each line that has one; repeated lines
      give repeated entries. */
  lemma FindAllByLines(rule: LineRule, s: string)
    ensures FindAll(rule, s) == PerLine(Matcher(rule), Lines(s))
  {
    MatcherProperties(rule);
    ScanByLines(Matcher(rule), HeadLen(rule), s);
  }

  /** Text before a line feed and text after it are scanned independently. */
  lemma FindAllSplit(rule: LineRule, s1: string, s2: string)
    ensures FindAll(rule, s1 + ['\n'] + s2) == FindAll(rule, s1) + FindAll(rule, s2)
  {
    MatcherProperties(rule);
    ScanSplit(Matcher(rule), HeadLen(rule), s1, s2);
  }

  // ---------------------------------------------------------------------
  // `float(...)` on a captured number and the source count.

  function Pow10(n: nat): (p: nat)
    ensures p > 0
  {
    if n == 0 then 1 else 10 * Pow10(n - 1)
  }

  /** Python's `float(x)` for a text made of `[0-9.-]`: an optional leading
      minus sign, then digits with at most one decimal point and at least one
      digit; anything else raises `ValueError`.  The value is the exact decimal
      value of the text. */
  function ParseFloat(x: string): Option<real>
  {
    if |x| > 0 && x[0] == '-' then
      match ParseUnsigned(x[1..])
      case Some(v) => Some(-v)
      case None => None
    else ParseUnsigned(x)
  }

  /** Digits with at most one decimal point and at least one digit. */
  function ParseUnsigned(body: string): Option<real>
  {
    var ip := Span(body, IsDigit);
    var rest := body[|ip|..];
    if rest == [] then
      if ip == [] then None else Some(DigitsValue(ip) as real)
    else if rest[0] != '.' then None
    else
      var fp := Span(rest[1..], IsDigit);
      if |fp| < |rest| - 1 || (ip == [] && fp == []) then None
      else Some(DecimalValue(ip, fp))
  }

  /** The value of `ip.fp`. */
  function DecimalValue(ip: string, fp: string): real
    requires forall i :: 0 <= i < |ip| ==> IsDigit(ip[i])
    requires forall i :: 0 <= i < |fp| ==> IsDigit(fp[i])
  {
    DigitsValue(ip) as real + DigitsValue(fp) as real / Pow10(|fp|) as real
  }

  /** The text Python prints for a whole number converts back to it. */
  lemma ParseFloatNat(n: nat)
    ensures ParseFloat(NatToString(n)) == Some(n as real)
  {
    var s := NatToString(n);
    SpanAll(s, IsDigit);
    DigitsValueOfNatToString(n);
  }

  /** `ip.fp` converts to the decimal value it spells. */
  lemma ParseUnsignedDecimal(ip: string, fp: string)
    requires forall i :: 0 <= i < |ip| ==> IsDigit(ip[i])
    requires forall i :: 0 <= i < |fp| ==> IsDigit(fp[i])
    requires ip != [] || fp != []
    ensures ParseUnsigned(ip + ("." + fp)) == Some(DecimalValue(ip, fp))
  {
    SpanExact(ip, "." + fp, IsDigit);
    PrefixThenRest(ip, "." + fp);
    SpanAll(fp, IsDigit);
    assert ("." + fp)[1..] == fp;
  }

  /** `ip.fp` and `-ip.fp` convert to the decimal value they spell. */
  lemma ParseFloatDecimal(ip: string, fp: string)
    requires forall i :: 0 <= i < |ip| ==> IsDigit(ip[i])
    requires forall i :: 0 <= i < |fp| ==> IsDigit(fp[i])
    requires ip != [] || fp != []
    ensures ParseFloat(ip + ("." + fp)) == Some(DecimalValue(ip, fp))
    ensures ParseFloat("-" + (ip + ("." + fp))) == Some(-DecimalValue(ip, fp))
  {
    var body := ip + ("." + fp);
    ParseUnsignedDecimal(ip, fp);
    assert body[0] != '-' by {
      if ip != [] { assert body[0] == ip[0]; } else { assert body[0] == '.'; }
    }
    assert ParseFloat(body) == ParseUnsigned(body);
    var neg := "-" + body;
    assert |neg| > 0 && neg[0] == '-' && neg[1..] == body;
  }

  /** A second decimal point makes the text no number. */
  lemma ParseFloatSecondPoint(ip: string, fp: string, tail: string)
    requires forall i :: 0 <= i < |ip| ==> IsDigit(ip[i])
    requires forall i :: 0 <= i < |fp| ==> IsDigit(fp[i])
    ensures ParseFloat(ip + ("." + (fp + ("." + tail)))) == None
  {
    var t := "." + (fp + ("." + tail));
    var x := ip + t;
    assert x[0] != '-' by {
      if ip != [] { assert x[0] == ip[0]; } else { assert x[0] == '.'; }
    }
    SpanExact(ip, t, IsDigit);
    PrefixThenRest(ip, t);
    assert t[1..] == fp + ("." + tail);
    SpanExact(fp, "." + tail, IsDigit);
  }

  const SourcesLead := "simplexy: found "

  /** `simplexy: found (\d+) sources` anchored at the start of `t`, with the
      capture converted by `int(...)`. */
  function SourcesAt(t: string): Option<nat>
  {
    if !StartsWith(t, SourcesLead) then None
    else
      var d := Span(t[|SourcesLead|..], IsDigit);
      if d != [] && StartsWith(t[|SourcesLead| + |d|..], " sources") then Some(DigitsValue(d)) else None
  }

  lemma SourcesRoundTrip(n: nat, rest: string)
    ensures SourcesAt(SourcesLead + (NatToString(n) + (" sources" + rest))) == Some(n)
  {
    var d := NatToString(n);
    PrefixThenRest(SourcesLead, d + (" sources" + rest));
    SpanExact(d, " sources" + rest, IsDigit);
    PrefixThenRest(d, " sources" + rest);
    PrefixThenRest(" sources", rest);
    assert (SourcesLead + (d + (" sources" + rest)))[|SourcesLead| + |d|..] == " sources" + rest;
    DigitsValueOfNatToString(n);
  }

  // ---------------------------------------------------------------------
  // `parse_buf` as a whole.

  /** What `parse_buf` returns: the field of view in degrees, the field centre
      (right ascension, declination), the pixel scale in arcseconds, the four
      find-all lists and, when the index line is present, the index name. */
  datatype Report = Report(
    fov: (real, real),
    center: (real, real),
    arcsecPerPixel: real,
    constellations: seq<string>,
    stars: seq<string>,
    ic: seq<string>,
    ngc: seq<string>,
    index: Option<string>)

  datatype Mandatory = FieldSizePattern | FieldCenterPattern | PixelScalePattern

  /** The exceptions `parse_buf` lets escape: a mandatory pattern with no match
      (`AttributeError` on `None.groups()`) or a capture `float` rejects
      (`ValueError`). */
  datatype ParseError = NoMatch(pattern: Mandatory) | NotANumber(text: string)

  function Float(x: string): Result<real, ParseError>
  {
    match ParseFloat(x)
    case Some(v) => Success(v)
    case None => Failure(NotANumber(x))
  }

  function Floats(p: (string, string)): (r: Result<(real, real), ParseError>)
    ensures r.Success? <==> ParseFloat(p.0).Some? && ParseFloat(p.1).Some?
    ensures r.Success? ==> Some(r.value.0) == ParseFloat(p.0) && Some(r.value.1) == ParseFloat(p.1)
    ensures r.Failure? ==> r.error == NotANumber(if ParseFloat(p.0).None? then p.0 else p.1)
  {
    match Float(p.0)
    case Failure(e) => Failure(e)
    case Success(a) =>
      match Float(p.1)
      case Failure(e) => Failure(e)
      case Success(b) => Success((a, b))
  }

  /** `parse_buf(b)`: the three mandatory searches are converted in the
      order the source evaluates them; the find-all lists and the optional
      index search cannot fail. */
  function ParseBuf(b: string): (r: Result<Report, ParseError>)
    ensures r.Success? ==> Search(b, FieldSizeAt).Some? && Search(b, FieldCenterAt).Some?
                           && Search(b, PixelScaleAt).Some?
    ensures r.Success? ==> r.value.index == Search(b, IndexAt)
    ensures r.Failure? && r.error.NotANumber? ==> ParseFloat(r.error.text).None?
  {
    Assemble(Search(b, FieldSizeAt), Search(b, FieldCenterAt), Search(b, PixelScaleAt),
             FindAll(Constellation, b), FindAll(Star, b), FindAll(Ic, b), FindAll(Ngc, b),
             Search(b, IndexAt))
  }

  function Assemble(size: Option<(string, string)>, c: Option<(string, string)>,
                    n: Option<string>, constellations: seq<string>, stars: seq<string>,
                    ic: seq<string>, ngc: seq<string>, index: Option<string>): (r: Result<Report, ParseError>)
    ensures r == Failure(NoMatch(FieldSizePattern)) <==> size.None?
    ensures r.Success? <==> size.Some? && Floats(size.value).Success?
                             && c.Some? && Floats(c.value).Success?
                             && n.Some? && ParseFloat(n.value).Some?
    ensures r.Failure? && r.error.NotANumber? ==> ParseFloat(r.error.text).None?
    ensures r.Success? ==>
              && Some(r.value.fov.0) == ParseFloat(size.value.0)
              && Some(r.value.fov.1) == ParseFloat(size.value.1)
              && Some(r.value.center.0) == ParseFloat(c.value.0)
              && Some(r.value.center.1) == ParseFloat(c.value.1)
              && Some(r.value.arcsecPerPixel) == ParseFloat(n.value)
              && r.value.constellations == constellations && r.value.stars == stars
              && r.value.ic == ic && r.value.ngc == ngc && r.value.index == index
  {
    match size
    case None => Failure(NoMatch(FieldSizePattern))
    case Some(sz) =>
      match Floats(sz)
      case Failure(e) => Failure(e)
      case Success(fov) =>
        match c
        case None => Failure(NoMatch(FieldCenterPattern))
        case Some(cc) =>
          match Floats(cc)
          case Failure(e) => Failure(e)
          case Success(center) =>
            match n
            case None => Failure(NoMatch(PixelScalePattern))
            case Some(nn) =>
              match Float(nn)
              case Failure(e) => Failure(e)
              case Success(scale) =>
                Success(Report(fov, center, scale, constellations, stars, ic, ngc, index))
  }

  /** The report is rejected for a missing field size exactly when no position
      of it starts the field-size pattern, and the index is absent exactly when
      no position starts the index pattern. */
  lemma ParseBufMissing(b: string)
    ensures ParseBuf(b) == Failure(NoMatch(FieldSizePattern))
            <==> forall k :: 0 <= k <= |b| ==> FieldSizeAt(b[k..]).None?
    ensures ParseBuf(b).Success? ==>
              (ParseBuf(b).value.index.None? <==> forall k :: 0 <= k <= |b| ==> IndexAt(b[k..]).None?)
  {
    var _ := Search(b, FieldSizeAt);
    var _ := Search(b, IndexAt);
  }
}
