/** `split_kvpairs` (fitspatch.py): the `K=V` command-line arguments that name
    a header keyword and the value to write into it.  An argument is accepted
    when it matches `^([0-9A-Z_-]{,8})[/:=](.+?)\s*$` and is at most 81
    characters long. */
module KvPairs {
  import opened Outcome
  import opened Text

  /** `[0-9A-Z_-]` */
  predicate IsNameChar(c: char) { ('0' <= c <= '9') || ('A' <= c <= 'Z') || c == '_' || c == '-' }

  /** `[/:=]` */
  predicate IsSeparator(c: char) { c == '/' || c == ':' || c == '=' }

  const MaxNameLength := 8
  const MaxArgLength := 81

  /** The `groupdict()` of a match: the keys `name` and `value`. */
  datatype KvPair = KvPair(name: string, value: string)

  ghost predicate AllSpace(s: string)
  {
    forall i :: 0 <= i < |s| ==> IsSpace(s[i])
  }

  /** `s` without its trailing whitespace. */
  function TrimEnd(s: string): (r: string)
    ensures r <= s && AllSpace(s[|r|..])
    ensures r == [] || !IsSpace(r[|r| - 1])
    decreases |s|
  {
    if s != [] && IsSpace(s[|s| - 1]) then
      var r := TrimEnd(s[..|s| - 1]);
      assert s[|r|..] == s[..|s| - 1][|r|..] + [s[|s| - 1]];
      r
    else s
  }

  /** The anchored pattern.  The name group cannot stop inside a run of name
      characters, since the separator must follow it, so it is the whole run,
      and at most eight long. */
  function MatchKv(x: string): (r: Option<KvPair>)
    ensures r.Some? ==> NameThenSeparator(x, r.value)
  {
    var name := Span(x, IsNameChar);
    if |name| > MaxNameLength || |name| == |x| || !IsSeparator(x[|name|]) then None
    else
      match ValueOf(x[|name| + 1..])
      case Some(value) => Some(KvPair(name, value))
      case None => None
  }

  /** `(.+?)\s*$` on what follows the separator: the lazy group stops as soon
      as only whitespace is left, but takes at least one character, and `.`
      never takes a line feed. */
  function ValueOf(rest: string): (r: Option<string>)
    ensures r.Some? ==> ValueThenSpace(rest, r.value)
    ensures rest != [] && !IsSpace(rest[0]) && '\n' !in rest ==> r.Some?
  {
    if rest == [] then None
    else
      var t := TrimEnd(rest);
      var value := if t == [] then rest[..1] else t;
      assert t == [] ==> rest[|value|..] == rest[|t|..][1..];
      if '\n' in value then None else Some(value)
  }

  /** `m and len(x) <= 81`. */
  function Accept(x: string): (r: Option<KvPair>)
    ensures |x| > MaxArgLength ==> r.None?
  {
    if |x| <= MaxArgLength then MatchKv(x) else None
  }

  /** `v` is a value the group can capture, and only whitespace follows it. */
  ghost predicate ValueThenSpace(rest: string, v: string)
  {
    GoodValue(v) && v <= rest && AllSpace(rest[|v|..])
  }

  /** `x` starts with the name of `p` and a separator, and the value of `p`
      is one the group can capture. */
  ghost predicate NameThenSeparator(x: string, p: KvPair)
  {
    GoodName(p.name) && GoodValue(p.value) && |p.name| < |x| && IsSeparator(x[|p.name|])
  }

  ghost predicate GoodName(name: string)
  {
    |name| <= MaxNameLength && forall i :: 0 <= i < |name| ==> IsNameChar(name[i])
  }

  /** A value the group can capture: not empty, no line feed, and ending in a
      non-space unless it is a single character. */
  ghost predicate GoodValue(value: string)
  {
    value != [] && '\n' !in value && (|value| == 1 || !IsSpace(value[|value| - 1]))
  }

  lemma ValueOfComplete(value: string, tail: string)
    requires GoodValue(value) && AllSpace(tail)
    ensures ValueOf(value + tail) == Some(value)
  {
    var rest := value + tail;
    TrimEndSpaces(value, tail);
    if !IsSpace(value[|value| - 1]) {
      assert TrimEnd(rest) == value;
    } else {
      assert TrimEnd(value) == TrimEnd(value[..0]);
      assert rest[..1] == value;
    }
  }

  /** Every accepted argument is spelled as its name, a separator, its value
      and trailing whitespace. */
  lemma MatchKvSound(x: string, p: KvPair)
    requires MatchKv(x) == Some(p)
    ensures GoodName(p.name) && GoodValue(p.value)
    ensures |p.name| + 1 + |p.value| <= |x|
    ensures x[..|p.name|] == p.name && IsSeparator(x[|p.name|])
    ensures x[|p.name| + 1..|p.name| + 1 + |p.value|] == p.value
    ensures AllSpace(x[|p.name| + 1 + |p.value|..])
  {
    MatchKvParts(x, p);
    ValueAfterSeparator(x, |p.name| + 1, p.value);
  }

  /** How an accepted argument splits: the name run, the separator after it,
      and the text the value is taken from. */
  lemma MatchKvParts(x: string, p: KvPair)
    requires MatchKv(x) == Some(p)
    ensures p.name == Span(x, IsNameChar) && GoodName(p.name)
    ensures |p.name| < |x| && x[..|p.name|] == p.name && IsSeparator(x[|p.name|])
    ensures ValueOf(x[|p.name| + 1..]) == Some(p.value)
  {
  }

  /** A prefix of the text after position `n` sits at `n` in the whole text. */
  lemma ValueAfterSeparator(x: string, n: nat, v: string)
    requires n <= |x| && v <= x[n..] && AllSpace(x[n..][|v|..])
    ensures n + |v| <= |x| && x[n..n + |v|] == v && AllSpace(x[n + |v|..])
  {
    assert x[n..][|v|..] == x[n + |v|..];
  }

  /** Conversely, every such spelling is accepted with its name and value: the
      name is read up to the first separator and separators in the value are
      kept. */
  lemma MatchKvComplete(name: string, sep: char, value: string, tail: string)
    requires GoodName(name) && IsSeparator(sep) && GoodValue(value) && AllSpace(tail)
    ensures MatchKv(name + ([sep] + (value + tail))) == Some(KvPair(name, value))
  {
    var x := name + ([sep] + (value + tail));
    Text.SpanAppend(name, [sep] + (value + tail), IsNameChar);
    SpanAllNames(name);
    assert x[|name|] == sep;
    assert x[|name| + 1..] == value + tail;
    ValueOfComplete(value, tail);
  }

  lemma {:induction false} SpanAllNames(name: string)
    requires forall i :: 0 <= i < |name| ==> IsNameChar(name[i])
    ensures Span(name, IsNameChar) == name
  {
    if name != [] {
      SpanAllNames(name[1..]);
    }
  }

  /** Trailing whitespace after a text is what `TrimEnd` removes. */
  lemma {:induction false} TrimEndSpaces(v: string, tail: string)
    requires AllSpace(tail)
    ensures TrimEnd(v + tail) == TrimEnd(v)
    decreases |tail|
  {
    if tail == [] {
      assert v + tail == v;
    } else {
      var n := |tail| - 1;
      assert (v + tail)[..|v + tail| - 1] == v + tail[..n];
      TrimEndSpaces(v, tail[..n]);
    }
  }

  /** A separator inside the value belongs to the value: the name stops at
      the first one. */
  lemma SeparatorInValue()
    ensures MatchKv("A=b=c") == Some(KvPair("A", "b=c"))
  {
    MatchKvComplete("A", '=', "b=c", "");
    assert "A" + (['='] + ("b=c" + "")) == "A=b=c";
  }

  /** The name group may match nothing. */
  lemma EmptyName()
    ensures MatchKv("=X") == Some(KvPair("", "X"))
  {
    MatchKvComplete("", '=', "X", "");
    assert "" + (['='] + ("X" + "")) == "=X";
  }

  /** A value of whitespace alone keeps its first character: the lazy group
      takes at least one. */
  lemma BlankValueKeepsOne()
    ensures MatchKv("K=  ") == Some(KvPair("K", " "))
  {
    assert GoodName("K") && GoodValue(" ") && AllSpace(" ");
    MatchKvComplete("K", '=', " ", " ");
    assert "K" + (['='] + (" " + " ")) == "K=  ";
  }

  /** A lower-case letter where the name starts: rejected. */
  lemma RejectsLowerCase()
    ensures MatchKv("k=v").None?
  {
    assert Span("k=v", IsNameChar) == [];
  }

  /** A name of nine characters: rejected. */
  lemma RejectsLongName()
    ensures MatchKv("ABCDEFGHI=v").None?
  {
    SpanAtLeast("ABCDEFGHI=v", 9);
  }

  lemma {:induction false} SpanAtLeast(s: string, n: nat)
    requires n <= |s| && forall i :: 0 <= i < n ==> IsNameChar(s[i])
    ensures |Span(s, IsNameChar)| >= n
  {
    if n > 0 {
      SpanAtLeast(s[1..], n - 1);
    }
  }

  /** No separator, or nothing after it: rejected. */
  lemma RejectsMissingParts()
    ensures MatchKv("ABC").None?
    ensures MatchKv("A=").None?
  {
    SpanAllNames("ABC");
    SpanAllNames("A");
    Text.SpanAppend("A", "=", IsNameChar);
    assert "A=" == "A" + "=";
    assert "A="[2..] == [];
  }

  /** The accepted arguments, in order, as `split_kvpairs` returns them. */
  function Accepted(kv: seq<string>): seq<KvPair>
  {
    if kv == [] then [] else Accepted(kv[..|kv| - 1]) + Groups(kv[|kv| - 1])
  }

  /** What one argument adds to the output: its groups when it is accepted. */
  function Groups(x: string): seq<KvPair>
  {
    match Accept(x)
    case Some(p) => [p]
    case None => []
  }

  /** `split_kvpairs`: the loop appending each accepted argument's groups. */
  method SplitKvPairs(kv: seq<string>) returns (rv: seq<KvPair>)
    ensures rv == Accepted(kv)
  {
    rv := [];
    var i := 0;
    while i < |kv|
      invariant 0 <= i <= |kv|
      invariant rv == Accepted(kv[..i])
    {
      var x := kv[i];
      var m := MatchKv(x);
      assert kv[..i + 1][..i] == kv[..i];
      if m.Some? && |x| <= MaxArgLength {
        rv := rv + [m.value];
      }
      i := i + 1;
    }
    assert kv[..i] == kv;
  }

  /** The output keeps the order of the arguments: that of two runs is the
      first's followed by the second's. */
  lemma {:induction false} AcceptedAppend(a: seq<string>, b: seq<string>)
    ensures Accepted(a + b) == Accepted(a) + Accepted(b)
    decreases |b|
  {
    if b == [] {
      assert a + b == a;
    } else {
      var n := |b| - 1;
      assert (a + b)[..|a + b| - 1] == a + b[..n];
      AcceptedAppend(a, b[..n]);
    }
  }

  /** Each entry of the output is the groups of some accepted argument, and
      every accepted argument contributes its groups. */
  lemma AcceptedMembers(kv: seq<string>)
    ensures forall p :: p in Accepted(kv) <==> exists x :: x in kv && Accept(x) == Some(p)
    ensures |Accepted(kv)| <= |kv|
  {
    forall p ensures p in Accepted(kv) <==> exists x :: x in kv && Accept(x) == Some(p) {
      if p in Accepted(kv) {
        var i := AcceptedWitness(kv, p);
        assert kv[i] in kv;
      }
      if exists x :: x in kv && Accept(x) == Some(p) {
        var x :| x in kv && Accept(x) == Some(p);
        var i :| 0 <= i < |kv| && kv[i] == x;
        AcceptedComplete(kv, i);
        AcceptedOne(kv[i], p);
        assert Accepted(kv)[|Accepted(kv[..i])|] == p;
      }
    }
    var _ := AcceptedWitness(kv, KvPair("", ""));
  }

  /** Where an entry of the output comes from. */
  lemma {:induction false} AcceptedWitness(kv: seq<string>, p: KvPair) returns (i: nat)
    ensures |Accepted(kv)| <= |kv|
    ensures p in Accepted(kv) ==> i < |kv| && Accept(kv[i]) == Some(p)
    decreases |kv|
  {
    i := 0;
    if kv != [] {
      var n := |kv| - 1;
      i := AcceptedWitness(kv[..n], p);
      if p !in Accepted(kv[..n]) {
        i := n;
      }
    }
  }

  /** The output is that of the arguments before `kv[i]`, then what `kv[i]`
      alone gives, then that of the arguments after it. */
  lemma AcceptedComplete(kv: seq<string>, i: nat)
    requires i < |kv|
    ensures Accepted(kv) == Accepted(kv[..i]) + Accepted([kv[i]]) + Accepted(kv[i + 1..])
  {
    var upto, after := kv[..i + 1], kv[i + 1..];
    SplitAt(kv, i);
    AcceptedAppend(kv[..i], [kv[i]]);
    AcceptedAppend(upto, after);
  }

  /** A sequence is what comes before position `i`, the element there, and
      what comes after. */
  lemma SplitAt<T>(s: seq<T>, i: nat)
    requires i < |s|
    ensures s[..i] + [s[i]] == s[..i + 1] && s[..i + 1] + s[i + 1..] == s
  {
  }

  /** An accepted argument alone gives its groups. */
  lemma AcceptedOne(x: string, p: KvPair)
    requires Accept(x) == Some(p)
    ensures Accepted([x]) == [p]
  {
    assert [x][..0] == [];
  }
}
