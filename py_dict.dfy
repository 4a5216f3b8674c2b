/** Python's `dict` with string keys, as the scripts use it: entries kept in
    insertion order, assignment to an existing key keeps its position, a new
    key goes to the end, `del` removes the entry, and `update` assigns every
    entry of the other dict in that dict's order. */
module PyDict {
  import opened Outcome

  type Dict<V> = seq<(string, V)>

  /** The keys in order, what `list(d.keys())` gives. */
  function Keys<V>(d: Dict<V>): (ks: seq<string>)
    ensures |ks| == |d| && forall i :: 0 <= i < |d| ==> ks[i] == d[i].0
  {
    seq(|d|, i requires 0 <= i < |d| => d[i].0)
  }

  /** No key occurs twice: every dict the scripts build has this. */
  ghost predicate Distinct<V>(d: Dict<V>)
  {
    forall i, j :: 0 <= i < j < |d| ==> d[i].0 != d[j].0
  }

  /** The position of key `k`, or `|d|` when it is absent. */
  function Find<V>(d: Dict<V>, k: string): (i: nat)
    ensures i <= |d|
    ensures i < |d| ==> d[i].0 == k
    ensures forall j :: 0 <= j < i ==> d[j].0 != k
  {
    if d == [] then 0 else if d[0].0 == k then 0 else 1 + Find(d[1..], k)
  }

  /** `k in d`. */
  predicate Has<V>(d: Dict<V>, k: string)
  {
    Find(d, k) < |d|
  }

  lemma HasIffInKeys<V>(d: Dict<V>, k: string)
    ensures Has(d, k) <==> k in Keys(d)
  {
    if k in Keys(d) {
      var i :| 0 <= i < |d| && Keys(d)[i] == k;
    }
  }

  /** `d.get(k)`, with `None` for a missing key. */
  function Get<V>(d: Dict<V>, k: string): (r: Option<V>)
    ensures r.Some? <==> Has(d, k)
  {
    var i := Find(d, k);
    if i < |d| then Some(d[i].1) else None
  }

  /** `d.get(k, default)`. */
  function GetOr<V>(d: Dict<V>, k: string, default: V): V
  {
    match Get(d, k)
    case Some(v) => v
    case None => default
  }

  /** The position of a key is determined by where it first occurs. */
  lemma FindUnique<V>(d: Dict<V>, k: string, i: nat)
    requires i <= |d| && (i < |d| ==> d[i].0 == k)
    requires forall j :: 0 <= j < i ==> d[j].0 != k
    ensures Find(d, k) == i
  {
  }

  /** `d[k] = v`: an existing key keeps its place, a new key is appended. */
  function Set<V>(d: Dict<V>, k: string, v: V): (r: Dict<V>)
    ensures Get(r, k) == Some(v)
    ensures forall j :: j != k ==> Get(r, j) == Get(d, j)
    ensures Keys(r) == if Has(d, k) then Keys(d) else Keys(d) + [k]
    ensures Distinct(d) ==> Distinct(r)
  {
    var i := Find(d, k);
    if i < |d| then
      var r := d[i := (k, v)];
      forall j ensures Find(r, j) == Find(d, j) {
        FindUnique(r, j, Find(d, j));
      }
      r
    else
      var r := d + [(k, v)];
      forall j ensures Find(r, j) == if Has(d, j) || j == k then Find(d, j) else |r| {
        if Has(d, j) || j == k {
          FindUnique(r, j, Find(d, j));
        } else {
          FindUnique(r, j, |r|);
        }
      }
      r
  }

  /** `del d[k]`; the other entries keep their order. */
  function Del<V>(d: Dict<V>, k: string): (r: Dict<V>)
    requires Distinct(d)
    ensures Get(r, k) == None
    ensures forall j :: j != k ==> Get(r, j) == Get(d, j)
    ensures Distinct(r)
    ensures Has(d, k) ==> Keys(r) == Keys(d)[..Find(d, k)] + Keys(d)[Find(d, k) + 1..]
    ensures !Has(d, k) ==> r == d
  {
    var i := Find(d, k);
    if i < |d| then
      DelAt(d, i);
      d[..i] + d[i + 1..]
    else
      d
  }

  /** Removing the entry at position `i` moves the later keys one place forward. */
  lemma DelAt<V>(d: Dict<V>, i: nat)
    requires Distinct(d) && i < |d|
    ensures var r := d[..i] + d[i + 1..];
      && Distinct(r)
      && Keys(r) == Keys(d)[..i] + Keys(d)[i + 1..]
      && Find(r, d[i].0) == |r|
      && forall j :: j != d[i].0 ==> Find(r, j) == if Find(d, j) < i then Find(d, j) else Find(d, j) - 1
  {
    var r := d[..i] + d[i + 1..];
    DelAtShape(d, i);
    FindUnique(r, d[i].0, |r|);
    forall j | j != d[i].0
      ensures Find(r, j) == if Find(d, j) < i then Find(d, j) else Find(d, j) - 1
    {
      var f := Find(d, j);
      if f < i {
        FindUnique(r, j, f);
      } else {
        FindUnique(r, j, f - 1);
      }
    }
  }

  /** The entries of `d` around position `i`, and its keys, once `i` is removed. */
  lemma DelAtShape<V>(d: Dict<V>, i: nat)
    requires Distinct(d) && i < |d|
    ensures var r := d[..i] + d[i + 1..];
      && |r| == |d| - 1
      && (forall m :: 0 <= m < i ==> r[m] == d[m])
      && (forall m :: i <= m < |r| ==> r[m] == d[m + 1])
      && Distinct(r)
      && Keys(r) == Keys(d)[..i] + Keys(d)[i + 1..]
  {
    var r := d[..i] + d[i + 1..];
    forall a, b | 0 <= a < b < |r| ensures r[a].0 != r[b].0 {
      var a', b' := if a < i then a else a + 1, if b < i then b else b + 1;
      assert r[a] == d[a'] && r[b] == d[b'];
    }
  }

  /** `d.update(o)`: every entry of `o` is assigned in `o`'s order. */
  function Update<V>(d: Dict<V>, o: Dict<V>): (r: Dict<V>)
    decreases |o|
  {
    if o == [] then d else Update(Set(d, o[0].0, o[0].1), o[1..])
  }

  /** After `d.update(o)` a key has `o`'s value if `o` has it, and `d`'s otherwise. */
  lemma {:induction false} GetUpdate<V>(d: Dict<V>, o: Dict<V>, k: string)
    requires Distinct(o)
    ensures Get(Update(d, o), k) == if Has(o, k) then Get(o, k) else Get(d, k)
    decreases |o|
  {
    if o != [] {
      var d' := Set(d, o[0].0, o[0].1);
      assert Distinct(o[1..]);
      GetUpdate(d', o[1..], k);
      if k != o[0].0 {
        assert Find(o, k) == 1 + Find(o[1..], k);
      } else {
        assert Find(o[1..], k) == |o[1..]| by {
          forall j | 0 <= j < |o[1..]| ensures o[1..][j].0 != k {
            assert o[j + 1].0 != o[0].0;
          }
        }
      }
    }
  }

  /** `update` keeps the keys of `d` in place and never repeats a key. */
  lemma {:induction false} UpdateKeys<V>(d: Dict<V>, o: Dict<V>)
    ensures Distinct(d) ==> Distinct(Update(d, o))
    ensures |Update(d, o)| >= |d| && Keys(Update(d, o))[..|d|] == Keys(d)
    decreases |o|
  {
    if o != [] {
      var d' := Set(d, o[0].0, o[0].1);
      UpdateKeys(d', o[1..]);
      var u := Update(d', o[1..]);
      assert Update(d, o) == u;
      SetKeysPrefix(d, o[0].0, o[0].1);
      PrefixOfPrefix(Keys(u), Keys(d'), Keys(d));
    }
  }

  /** `d[k] = v` keeps the keys of `d`, in order, at the front. */
  lemma SetKeysPrefix<V>(d: Dict<V>, k: string, v: V)
    ensures |Set(d, k, v)| >= |d| && Keys(Set(d, k, v))[..|d|] == Keys(d)
  {
  }

  /** A prefix of a prefix is a prefix. */
  lemma PrefixOfPrefix<T>(a: seq<T>, b: seq<T>, c: seq<T>)
    requires |c| <= |b| <= |a| && a[..|b|] == b && b[..|c|] == c
    ensures a[..|c|] == c
  {
    assert a[..|c|] == a[..|b|][..|c|];
  }
}

/** The values that FITS headers carry as `fitsio` hands them to Python, with
    the Python semantics the scripts rely on: truthiness and `==`. */
module HeaderValues {
  import opened Outcome
  import opened PyDict

  /** A header value: a string, an integer, a float (as its exact real value),
      a boolean, an undefined value (`None`), or a 2-tuple the scripts build. */
  datatype HeaderValue =
    | Str(s: string)
    | Int(i: int)
    | Real(r: real)
    | Bool(b: bool)
    | Null
    | Pair(fst: HeaderValue, snd: HeaderValue)

  type Header = Dict<HeaderValue>

  /** Python's `bool(v)`: empty strings, zeros, `False` and `None` are false,
      every 2-tuple is true. */
  predicate Truthy(v: HeaderValue)
  {
    match v
    case Str(s) => s != []
    case Int(i) => i != 0
    case Real(r) => r != 0.0
    case Bool(b) => b
    case Null => false
    case Pair(_, _) => true
  }

  /** The numeric value of an `int`, `float` or `bool` (a subclass of `int`). */
  function Numeric(v: HeaderValue): Option<real>
  {
    match v
    case Int(i) => Some(i as real)
    case Real(r) => Some(r)
    case Bool(b) => Some(if b then 1.0 else 0.0)
    case _ => None
  }

  /** Python's `a == b`: numbers compare by value across `int`, `float` and
      `bool`; strings, `None` and tuples compare structurally. */
  predicate PyEq(a: HeaderValue, b: HeaderValue)
  {
    if Numeric(a).Some? || Numeric(b).Some? then
      Numeric(a).Some? && Numeric(b).Some? && Numeric(a).value == Numeric(b).value
    else match (a, b)
      case (Str(x), Str(y)) => x == y
      case (Null, Null) => true
      case (Pair(a1, a2), Pair(b1, b2)) => PyEq(a1, b1) && PyEq(a2, b2)
      case _ => false
  }

  /** Every value equals itself as Python compares it. */
  lemma {:induction false} PyEqReflexive(v: HeaderValue)
    ensures PyEq(v, v)
  {
    if v.Pair? {
      PyEqReflexive(v.fst);
      PyEqReflexive(v.snd);
    }
  }
}
