/** The per-file record of `fitsfilter.py`: a FITS header rewritten key by key
    into the record from which the output directory is formatted, and the
    loop over the files that collects the records and the moves. */
module FitsFilter {
  import opened Outcome
  import opened Text
  import opened PyDict
  import opened HeaderValues
  import ReportParser

  /** Telescope short names by `"<aperture>:<focal length>"` in millimetres. */
  const ScopeMap: Dict<string> := [
    ("60:270", "a5_60r"), ("60:360", "a5_60f"), ("60:446", "a5_60x"),
    ("80:385", "a5_80r"), ("80:495", "a5_80f"), ("80:600", "a5_80x"),
    ("70:336", "sv503r"), ("70:420", "sv503"),
    ("20:100", "dwarf2")]

  /** The header keys copied first, in header order, before the whole header. */
  const SrcColumns: seq<string> := [
    "TELESCOP", "INSTRUME", "CAMERA", "LENS", "FILTER",
    "APTDIA", "FOCALLEN", "FRAME", "DATE-OBS", "OBJECT", "EXPOSURE", "EXP", "EXPTIME", "XPOSURE",
    "GAIN", "CCD-TEMP", "NAXIS1", "NAXIS2", "PIXSIZE1", "PIXSIZE2", "BINNING", "XBINNING", "YBINNING",
    "SITELAT", "SITELONG", "RA", "DEC", "OBJCTRA", "OBJCTDEC"]

  /** The nonstandard exposure keys, in the order they are folded into `EXPTIME`. */
  const ExposureKeys: seq<string> := ["EXP", "EXPOSURE", "XPOSURE"]

  type Record = Dict<HeaderValue>

  /** The exceptions that end the run. */
  datatype FilterError =
    | KeyError(key: string)
    | TypeError        // `float(None)`
    | ValueError       // `float` of a string that is no number
    | AttributeError(key: string)  // `.replace` on a value that is not a string

  // ---------------------------------------------------------------------
  // FILENAME first, then the chosen columns, then the whole header.

  /** The loop over `fileheader.records()` that copies the chosen columns. */
  function SrcPass(d: Record, entries: Header): Record
    decreases |entries|
  {
    if entries == [] then d
    else SrcPass(if entries[0].0 in SrcColumns then Set(d, entries[0].0, entries[0].1) else d, entries[1..])
  }

  /** `rdict` after the copy of the chosen columns and `rdict.update(fileheader)`. */
  function Seeded(filename: string, header: Header): Record
  {
    Update(SrcPass([("FILENAME", Str(filename))], header), header)
  }

  lemma {:induction false} SrcPassGet(d: Record, entries: Header, k: string)
    requires !Has(entries, k)
    ensures Get(SrcPass(d, entries), k) == Get(d, k)
    decreases |entries|
  {
    if entries != [] {
      assert Find(entries, k) == 1 + Find(entries[1..], k);
      SrcPassGet(if entries[0].0 in SrcColumns then Set(d, entries[0].0, entries[0].1) else d, entries[1..], k);
    }
  }

  lemma {:induction false} SrcPassKeys(d: Record, entries: Header)
    ensures Distinct(d) ==> Distinct(SrcPass(d, entries))
    ensures |SrcPass(d, entries)| >= |d| && Keys(SrcPass(d, entries))[..|d|] == Keys(d)
    decreases |entries|
  {
    if entries != [] {
      var d' := if entries[0].0 in SrcColumns then Set(d, entries[0].0, entries[0].1) else d;
      var r := SrcPass(d', entries[1..]);
      assert SrcPass(d, entries) == r;
      SrcPassKeys(d', entries[1..]);
      SetKeysPrefix(d, entries[0].0, entries[0].1);
      PrefixOfPrefix(Keys(r), Keys(d'), Keys(d));
    }
  }

  /** The record starts with `FILENAME` and never repeats a key. */
  lemma SeededKeys(filename: string, header: Header)
    ensures Distinct(Seeded(filename, header))
    ensures |Seeded(filename, header)| > 0 && Seeded(filename, header)[0].0 == "FILENAME"
  {
    var seed: Record := [("FILENAME", Str(filename))];
    var p := SrcPass(seed, header);
    SrcPassKeys(seed, header);
    UpdateKeys(p, header);
    var r := Seeded(filename, header);
    assert Keys(p)[0] == Keys(p)[..1][0] == "FILENAME";
    assert Keys(r)[0] == Keys(r)[..|p|][0] == Keys(p)[0];
  }

  /** The record holds exactly what `{"FILENAME": filename}` updated with the
      header holds: the copy of the chosen columns only decides the order of
      the keys. */
  lemma SeededGet(filename: string, header: Header, k: string)
    requires Distinct(header)
    ensures Get(Seeded(filename, header), k) == Get(Update([("FILENAME", Str(filename))], header), k)
  {
    var seed: Record := [("FILENAME", Str(filename))];
    var p := SrcPass(seed, header);
    GetUpdate(p, header, k);
    GetUpdate(seed, header, k);
    if !Has(header, k) {
      SrcPassGet(seed, header, k);
    }
  }

  /** `FILENAME` is the first key of the record. */
  predicate FilenameFirst(d: Record)
  {
    |d| > 0 && d[0].0 == "FILENAME"
  }

  // ---------------------------------------------------------------------
  // SCOPE

  /** Python's `float(v)` for a header value.  Strings are read as decimal
      literals. */
  function AsFloat(v: HeaderValue): Result<real, FilterError>
  {
    match v
    case Int(i) => Success(i as real)
    case Real(r) => Success(r)
    case Bool(b) => Success(if b then 1.0 else 0.0)
    case Str(s) =>
      (match ReportParser.ParseFloat(s)
       case Some(r) => Success(r)
       case None => Failure(ValueError))
    case Null => Failure(TypeError)
    case Pair(_, _) => Failure(TypeError)
  }

  /** The integer `format(x, ".0f")` rounds to: the nearest one, ties to even. */
  function RoundHalfEven(x: real): (n: int)
    ensures n as real - 0.5 <= x <= n as real + 0.5
    ensures x == n as real - 0.5 || x == n as real + 0.5 ==> n % 2 == 0
  {
    var f := x.Floor;
    var d := x - f as real;
    if d < 0.5 then f
    else if d > 0.5 then f + 1
    else if f % 2 == 0 then f
    else f + 1
  }

  /** `format(x, ".0f")`: the rounded integer, with the sign of `x` kept
      when a negative value rounds to zero (`-0`). */
  function ZeroDecimals(x: real): (s: string)
    ensures |s| > 0
    ensures s[0] == '-' <==> x < 0.0
    ensures -0.5 <= x < 0.0 ==> s == "-0"
    ensures x >= 0.0 || x < -0.5 ==> s == IntToString(RoundHalfEven(x))
  {
    var n := RoundHalfEven(x);
    if x < 0.0 && n == 0 then "-0" else IntToString(n)
  }

  /** `s` has a `:` with something on either side of it. */
  ghost predicate TwoAroundColon(s: string)
  {
    ':' in s && s[0] != ':' && s[|s| - 1] != ':'
  }

  /** `f"{float(rdict.get('APTDIA', 0)):.0f}:{float(rdict.get('FOCALLEN', 0)):.0f}"`. */
  function ScopeKey(d: Record): (r: Result<string, FilterError>)
    ensures r.Failure? ==> r.error == TypeError || r.error == ValueError
    ensures AsFloat(GetOr(d, "APTDIA", Int(0))).Success? && AsFloat(GetOr(d, "FOCALLEN", Int(0))).Success? ==> r.Success?
    ensures r.Success? ==> TwoAroundColon(r.value)
    ensures r.Success? ==> AsFloat(GetOr(d, "APTDIA", Int(0))).Success?
                           && (r.value[0] == '-' <==> AsFloat(GetOr(d, "APTDIA", Int(0))).value < 0.0)
  {
    match AsFloat(GetOr(d, "APTDIA", Int(0)))
    case Failure(e) => Failure(e)
    case Success(a) =>
      match AsFloat(GetOr(d, "FOCALLEN", Int(0)))
      case Failure(e) => Failure(e)
      case Success(f) => Success(ZeroDecimals(a) + ":" + ZeroDecimals(f))
  }

  /** `(key, name)` is an entry of the table. */
  ghost predicate InScopeMap(key: string, name: string)
  {
    (key, name) in ScopeMap
  }

  /** `SCOPE_MAP.get(ix, "unknown")`. */
  function ScopeName(key: string): (r: string)
    ensures r == "unknown" <==> !Has(ScopeMap, key)
    ensures Has(ScopeMap, key) ==> InScopeMap(key, r)
  {
    GetOr(ScopeMap, key, "unknown")
  }

  lemma RoundWhole(n: int)
    ensures RoundHalfEven(n as real) == n
  {
  }

  /** Whole-number aperture and focal length select the table entry spelled
      by them; a missing one counts as 0. */
  lemma ScopeKeyOfWholeNumbers(d: Record, a: nat, f: nat)
    requires GetOr(d, "APTDIA", Int(0)) == Int(a) && GetOr(d, "FOCALLEN", Int(0)) == Int(f)
    ensures ScopeKey(d) == Success(NatToString(a) + ":" + NatToString(f))
  {
    RoundWhole(a);
    RoundWhole(f);
  }

  /** An 80 mm objective at 600 mm is the `a5_80x`. */
  lemma AskarEightyExtended(d: Record)
    requires GetOr(d, "APTDIA", Int(0)) == Int(80) && GetOr(d, "FOCALLEN", Int(0)) == Int(600)
    ensures ScopeKey(d).Success? && ScopeName(ScopeKey(d).value) == "a5_80x"
  {
    ScopeKeyOfWholeNumbers(d, 80, 600);
    SpellEighty();
    SpellSixHundred();
    var key := ScopeKey(d).value;
    assert key == "80" + ":" + "600" == "80:600";
    EightyBySixHundred();
  }

  lemma EightyBySixHundred()
    ensures ScopeName("80:600") == "a5_80x"
  {
    FindUnique(ScopeMap, "80:600", 5);
  }

  lemma SpellEighty()
    ensures NatToString(80) == "80"
  {
    assert NatToString(8) == "8";
  }

  lemma SpellSixHundred()
    ensures NatToString(600) == "600"
  {
    assert NatToString(6) == "6";
    assert NatToString(60) == "60";
  }

  /** A header without aperture never names a known telescope. */
  lemma ScopeWithoutAperture(d: Record)
    requires !Has(d, "APTDIA")
    ensures ScopeKey(d).Success? ==> ScopeName(ScopeKey(d).value) == "unknown"
  {
    if ScopeKey(d).Success? {
      var k := ScopeKey(d).value;
      assert GetOr(d, "APTDIA", Int(0)) == Int(0);
      RoundWhole(0);
      assert k[0] == '0';
      NoZeroAperture(k);
    }
  }

  /** An aperture just below zero keeps its sign: `-0.4` mm shows as `-0`. */
  lemma ScopeKeyNegativeZero(d: Record)
    requires GetOr(d, "APTDIA", Int(0)) == Real(-0.4) && GetOr(d, "FOCALLEN", Int(0)) == Int(60)
    ensures ScopeKey(d) == Success("-0:60")
  {
    assert AsFloat(GetOr(d, "APTDIA", Int(0))) == Success(-0.4);
    assert AsFloat(GetOr(d, "FOCALLEN", Int(0))) == Success(60 as real);
    assert ScopeKey(d) == Success(ZeroDecimals(-0.4) + ":" + ZeroDecimals(60 as real));
    assert ZeroDecimals(-0.4) == "-0";
    RoundWhole(60);
    assert ZeroDecimals(60 as real) == NatToString(60);
    assert NatToString(6) == "6";
    assert NatToString(60) == "60";
    assert "-0" + ":" + "60" == "-0:60";
  }

  /** A negative aperture never names a known telescope. */
  lemma NegativeApertureUnknown(d: Record)
    requires AsFloat(GetOr(d, "APTDIA", Int(0))).Success? && AsFloat(GetOr(d, "APTDIA", Int(0))).value < 0.0
    ensures ScopeKey(d).Success? ==> ScopeName(ScopeKey(d).value) == "unknown"
  {
    if ScopeKey(d).Success? {
      NoSignedAperture(ScopeKey(d).value);
    }
  }

  /** No key of the table starts with a sign. */
  lemma NoSignedAperture(k: string)
    requires k != [] && k[0] == '-'
    ensures !Has(ScopeMap, k)
  {
    assert forall i :: 0 <= i < |ScopeMap| ==> ScopeMap[i].0[0] != '-';
  }

  /** No key of the table starts with a zero aperture. */
  lemma NoZeroAperture(k: string)
    requires k != [] && k[0] == '0'
    ensures !Has(ScopeMap, k)
  {
    assert forall i :: 0 <= i < |ScopeMap| ==> ScopeMap[i].0[0] != '0';
  }

  // ---------------------------------------------------------------------
  // How values print: `str(v)`, and `repr` inside a tuple.  How a float
  // prints is the parameter `showReal`.

  function Scalar(v: HeaderValue, showReal: real -> string): string
  {
    match v
    case Str(s) => s
    case Int(i) => IntToString(i)
    case Real(r) => showReal(r)
    case Bool(b) => if b then "True" else "False"
    case Null => "None"
    case Pair(_, _) => "()"
  }

  /** `repr(v)`: strings are quoted. */
  function Repr(v: HeaderValue, showReal: real -> string): string
  {
    match v
    case Str(s) => "'" + s + "'"
    case Pair(a, b) => "(" + Repr(a, showReal) + ", " + Repr(b, showReal) + ")"
    case _ => Scalar(v, showReal)
  }

  /** `str(v)`, which is also `format(v, "")`. */
  function Render(v: HeaderValue, showReal: real -> string): string
  {
    match v
    case Pair(a, b) => "(" + Repr(a, showReal) + ", " + Repr(b, showReal) + ")"
    case _ => Scalar(v, showReal)
  }

  // ---------------------------------------------------------------------
  // The derived keys, one step each.

  /** `SITE` when both coordinates of the site are present. */
  function WithSite(d: Record): (r: Record)
    ensures Distinct(d) ==> Distinct(r)
    ensures forall k :: k != "SITE" ==> Get(r, k) == Get(d, k)
    ensures Has(d, "SITELAT") && Has(d, "SITELONG")
            ==> Get(r, "SITE") == Some(Pair(Get(d, "SITELAT").value, Get(d, "SITELONG").value))
    ensures !(Has(d, "SITELAT") && Has(d, "SITELONG")) ==> r == d
    ensures FilenameFirst(d) ==> FilenameFirst(r)
  {
    if Has(d, "SITELAT") && Has(d, "SITELONG") then
      Set(d, "SITE", Pair(Get(d, "SITELAT").value, Get(d, "SITELONG").value))
    else d
  }

  /** `d[key] = (d[k1], d[k2])`, the step that builds `RADEC` from `RA` and
      `DEC` and `IMGSIZE` from `NAXIS1` and `NAXIS2`: a missing key ends the
      run, `k1` looked up first. */
  function WithPair(d: Record, key: string, k1: string, k2: string): (r: Result<Record, FilterError>)
    ensures r.Failure? <==> !Has(d, k1) || !Has(d, k2)
    ensures r.Failure? ==> r.error == KeyError(if Has(d, k1) then k2 else k1)
    ensures r.Success? ==> Distinct(d) ==> Distinct(r.value)
    ensures r.Success? ==> forall k :: k != key ==> Get(r.value, k) == Get(d, k)
    ensures r.Success? ==> Get(r.value, key) == Some(Pair(Get(d, k1).value, Get(d, k2).value))
    ensures r.Success? ==> key != "FILENAME" ==> FilenameFirst(d) ==> FilenameFirst(r.value)
  {
    if !Has(d, k1) then Failure(KeyError(k1))
    else if !Has(d, k2) then Failure(KeyError(k2))
    else Success(Set(d, key, Pair(Get(d, k1).value, Get(d, k2).value)))
  }

  /** `OBJRADEC`: both object coordinates with their spaces turned into colons.
      A missing key skips it; a coordinate that is not a string ends the run. */
  function WithObjRaDec(d: Record): (r: Result<Record, FilterError>)
    ensures r.Success? ==> Distinct(d) ==> Distinct(r.value)
    ensures r.Success? ==> forall k :: k != "OBJRADEC" ==> Get(r.value, k) == Get(d, k)
    ensures r.Failure? <==>
              (Has(d, "OBJCTRA") && !Get(d, "OBJCTRA").value.Str?)
              || (Has(d, "OBJCTRA") && Get(d, "OBJCTRA").value.Str?
                  && Has(d, "OBJCTDEC") && !Get(d, "OBJCTDEC").value.Str?)
    ensures r.Success? && Has(d, "OBJCTRA") && Has(d, "OBJCTDEC") ==>
              Get(r.value, "OBJRADEC")
              == Some(Pair(Str(Replace(Get(d, "OBJCTRA").value.s, ' ', ':')),
                           Str(Replace(Get(d, "OBJCTDEC").value.s, ' ', ':'))))
    ensures r.Success? && !(Has(d, "OBJCTRA") && Has(d, "OBJCTDEC")) ==> r.value == d
    ensures r.Success? ==> FilenameFirst(d) ==> FilenameFirst(r.value)
  {
    if !Has(d, "OBJCTRA") then Success(d)
    else
      match Get(d, "OBJCTRA").value
      case Str(ra) =>
        if !Has(d, "OBJCTDEC") then Success(d)
        else
          (match Get(d, "OBJCTDEC").value
           case Str(dec) => Success(Set(d, "OBJRADEC", Pair(Str(Replace(ra, ' ', ':')), Str(Replace(dec, ' ', ':')))))
           case _ => Failure(AttributeError("OBJCTDEC")))
      case _ => Failure(AttributeError("OBJCTRA"))
  }

  /** `PIXSIZE` as the source computes it: for pixels that are not square the
      pair repeats the horizontal size. */
  function WithPixSize(d: Record): (r: Record)
    ensures Distinct(d) ==> Distinct(r)
    ensures forall k :: k != "PIXSIZE" ==> Get(r, k) == Get(d, k)
    ensures !Has(d, "PIXSIZE1") || !Has(d, "PIXSIZE2") ==> r == d
    ensures FilenameFirst(d) ==> FilenameFirst(r)
  {
    if !Has(d, "PIXSIZE1") || !Has(d, "PIXSIZE2") then d
    else
      var x, y := Get(d, "PIXSIZE1").value, Get(d, "PIXSIZE2").value;
      if PyEq(x, y) then Set(d, "PIXSIZE", x) else Set(d, "PIXSIZE", Pair(x, x))
  }

  /** `PIXSIZE` as intended: the shared size of square pixels, otherwise the
      pair of horizontal and vertical sizes. */
  function WithPixSizeIntended(d: Record): (r: Record)
    ensures Distinct(d) ==> Distinct(r)
    ensures forall k :: k != "PIXSIZE" ==> Get(r, k) == Get(d, k)
    ensures !Has(d, "PIXSIZE1") || !Has(d, "PIXSIZE2") ==> r == d
    ensures FilenameFirst(d) ==> FilenameFirst(r)
  {
    if !Has(d, "PIXSIZE1") || !Has(d, "PIXSIZE2") then d
    else
      var x, y := Get(d, "PIXSIZE1").value, Get(d, "PIXSIZE2").value;
      if PyEq(x, y) then Set(d, "PIXSIZE", x) else Set(d, "PIXSIZE", Pair(x, y))
  }

  /** As written, the vertical size of non-square pixels is lost: the pair
      holds the horizontal size twice. */
  lemma PixSizeAsWrittenLosesHeight(d: Record)
    requires Has(d, "PIXSIZE1") && Has(d, "PIXSIZE2")
    requires !PyEq(Get(d, "PIXSIZE1").value, Get(d, "PIXSIZE2").value)
    ensures Get(WithPixSize(d), "PIXSIZE")
            == Some(Pair(Get(d, "PIXSIZE1").value, Get(d, "PIXSIZE1").value))
    ensures Get(WithPixSize(d), "PIXSIZE") != Some(Pair(Get(d, "PIXSIZE1").value, Get(d, "PIXSIZE2").value))
  {
    PyEqReflexive(Get(d, "PIXSIZE1").value);
  }

  /** A concrete header: 3.76 by 2.9 micrometre pixels come out as 3.76 by 3.76. */
  lemma PixSizeAsWrittenExample()
    ensures Get(WithPixSize([("PIXSIZE1", Real(3.76)), ("PIXSIZE2", Real(2.9))]), "PIXSIZE")
            == Some(Pair(Real(3.76), Real(3.76)))
  {
    var d: Record := [("PIXSIZE1", Real(3.76)), ("PIXSIZE2", Real(2.9))];
    assert Get(d, "PIXSIZE1") == Some(Real(3.76));
    assert Get(d, "PIXSIZE2") == Some(Real(2.9)) by {
      assert Find(d, "PIXSIZE2") == 1;
    }
  }

  /** As intended, `PIXSIZE` is the common size when the two agree (as Python
      compares them) and the pair of both sizes otherwise. */
  lemma PixSizeIntended(d: Record)
    requires Has(d, "PIXSIZE1") && Has(d, "PIXSIZE2")
    ensures var x, y := Get(d, "PIXSIZE1").value, Get(d, "PIXSIZE2").value;
            Get(WithPixSizeIntended(d), "PIXSIZE") == if PyEq(x, y) then Some(x) else Some(Pair(x, y))
  {
  }

  /** One turn of the exposure loop: a truthy value under `k` moves to `EXPTIME`. */
  function FoldOne(d: Record, k: string): (r: Record)
    requires Distinct(d)
    ensures Distinct(r)
    ensures k != "FILENAME" && FilenameFirst(d) ==> FilenameFirst(r)
  {
    match Get(d, k)
    case Some(v) => if Truthy(v) then Del(Set(d, "EXPTIME", v), k) else d
    case None => d
  }

  /** The exposure loop over `keys`. */
  function FoldExposure(d: Record, keys: seq<string>): (r: Record)
    requires Distinct(d)
    ensures Distinct(r)
    decreases |keys|
    ensures "FILENAME" !in keys && FilenameFirst(d) ==> FilenameFirst(r)
  {
    if keys == [] then d else FoldExposure(FoldOne(d, keys[0]), keys[1..])
  }

  predicate TruthyAt(d: Record, k: string)
  {
    Get(d, k).Some? && Truthy(Get(d, k).value)
  }

  /** The value of the last key of `keys` whose value is truthy. */
  function LastTruthy(d: Record, keys: seq<string>): Option<HeaderValue>
    decreases |keys|
  {
    if keys == [] then None
    else
      match LastTruthy(d, keys[1..])
      case Some(v) => Some(v)
      case None => if TruthyAt(d, keys[0]) then Get(d, keys[0]) else None
  }

  lemma FoldOneGet(d: Record, k: string, j: string)
    requires Distinct(d) && k != "EXPTIME"
    ensures j != k && j != "EXPTIME" ==> Get(FoldOne(d, k), j) == Get(d, j)
    ensures Get(FoldOne(d, k), k) == if TruthyAt(d, k) then None else Get(d, k)
    ensures Get(FoldOne(d, k), "EXPTIME") == if TruthyAt(d, k) then Get(d, k) else Get(d, "EXPTIME")
  {
    if TruthyAt(d, k) {
      var v := Get(d, k).value;
      var s := Set(d, "EXPTIME", v);
      assert FoldOne(d, k) == Del(s, k);
      assert Get(s, k) == Get(d, k);
    } else {
      assert FoldOne(d, k) == d;
    }
  }

  lemma {:induction false} LastTruthyFrame(d: Record, e: Record, keys: seq<string>)
    requires forall k :: k in keys ==> Get(d, k) == Get(e, k)
    ensures LastTruthy(d, keys) == LastTruthy(e, keys)
    decreases |keys|
  {
    if keys != [] {
      LastTruthyFrame(d, e, keys[1..]);
    }
  }

  /** The exposure loop: `EXPTIME` ends up with the value of the last truthy
      key, or keeps its own when none is truthy; the truthy keys are deleted,
      the falsy ones stay, and nothing else changes. */
  lemma FoldExposureGet(d: Record, keys: seq<string>, j: string)
    requires Distinct(d) && "EXPTIME" !in keys
    requires forall a, b :: 0 <= a < b < |keys| ==> keys[a] != keys[b]
    ensures Get(FoldExposure(d, keys), "EXPTIME")
            == if LastTruthy(d, keys).Some? then LastTruthy(d, keys) else Get(d, "EXPTIME")
    ensures j in keys ==> Get(FoldExposure(d, keys), j) == if TruthyAt(d, j) then None else Get(d, j)
    ensures j !in keys && j != "EXPTIME" ==> Get(FoldExposure(d, keys), j) == Get(d, j)
  {
    FoldExposureTime(d, keys);
    FoldExposureKey(d, keys, j);
  }

  lemma {:induction false} FoldExposureTime(d: Record, keys: seq<string>)
    requires Distinct(d) && "EXPTIME" !in keys
    requires forall a, b :: 0 <= a < b < |keys| ==> keys[a] != keys[b]
    ensures Get(FoldExposure(d, keys), "EXPTIME")
            == if LastTruthy(d, keys).Some? then LastTruthy(d, keys) else Get(d, "EXPTIME")
    decreases |keys|
  {
    if keys != [] {
      var k := keys[0];
      var d1 := FoldOne(d, k);
      assert FoldExposure(d, keys) == FoldExposure(d1, keys[1..]);
      DistinctTail(keys);
      FoldOneGet(d, k, "EXPTIME");
      FoldExposureTime(d1, keys[1..]);
      forall m | m in keys[1..] ensures Get(d1, m) == Get(d, m) {
        FoldOneGet(d, k, m);
      }
      LastTruthyFrame(d1, d, keys[1..]);
    }
  }

  lemma {:induction false} FoldExposureKey(d: Record, keys: seq<string>, j: string)
    requires Distinct(d) && "EXPTIME" !in keys
    requires forall a, b :: 0 <= a < b < |keys| ==> keys[a] != keys[b]
    ensures j in keys ==> Get(FoldExposure(d, keys), j) == if TruthyAt(d, j) then None else Get(d, j)
    ensures j !in keys && j != "EXPTIME" ==> Get(FoldExposure(d, keys), j) == Get(d, j)
    decreases |keys|
  {
    if keys != [] {
      var k := keys[0];
      var d1 := FoldOne(d, k);
      DistinctTail(keys);
      FoldOneGet(d, k, j);
      FoldExposureKey(d1, keys[1..], j);
    }
  }

  /** The tail of a list without repeats has none and lacks the head. */
  lemma DistinctTail(keys: seq<string>)
    requires keys != [] && forall a, b :: 0 <= a < b < |keys| ==> keys[a] != keys[b]
    ensures forall a, b :: 0 <= a < b < |keys[1..]| ==> keys[1..][a] != keys[1..][b]
    ensures keys[0] !in keys[1..]
  {
    forall a, b | 0 <= a < b < |keys[1..]| ensures keys[1..][a] != keys[1..][b] {
      assert keys[1..][a] == keys[a + 1] && keys[1..][b] == keys[b + 1];
    }
  }

  lemma ExposureKeysDistinct()
    ensures "EXPTIME" !in ExposureKeys
    ensures forall a, b :: 0 <= a < b < |ExposureKeys| ==> ExposureKeys[a] != ExposureKeys[b]
  {
  }

  /** `BINNING`: when absent or `None` it is `"<XBINNING>x<YBINNING>"`, which
      needs both keys; otherwise every `*` in it becomes `x`, which needs a
      string. */
  function WithBinning(d: Record, showReal: real -> string): (r: Result<Record, FilterError>)
    ensures r.Success? ==> Distinct(d) ==> Distinct(r.value)
    ensures r.Success? ==> forall k :: k != "BINNING" ==> Get(r.value, k) == Get(d, k)
    ensures r.Success? ==> Get(r.value, "BINNING").Some? && Get(r.value, "BINNING").value.Str?
    ensures r.Failure? <==>
              if Get(d, "BINNING").None? || Get(d, "BINNING") == Some(Null) then
                !Has(d, "XBINNING") || !Has(d, "YBINNING")
              else !Get(d, "BINNING").value.Str?
    ensures r.Success? ==> FilenameFirst(d) ==> FilenameFirst(r.value)
  {
    var b := Get(d, "BINNING");
    if b.None? || b.value == Null then BinningFromAxes(d, showReal)
    else if b.value.Str? then Success(Set(d, "BINNING", Str(Replace(b.value.s, '*', 'x'))))
    else Failure(AttributeError("BINNING"))
  }

  function BinningFromAxes(d: Record, showReal: real -> string): (r: Result<Record, FilterError>)
    ensures r.Failure? <==> !Has(d, "XBINNING") || !Has(d, "YBINNING")
    ensures r.Success? ==> Distinct(d) ==> Distinct(r.value)
    ensures r.Success? ==> forall k :: k != "BINNING" ==> Get(r.value, k) == Get(d, k)
    ensures r.Success? ==>
              Get(r.value, "BINNING")
              == Some(Str(Render(Get(d, "XBINNING").value, showReal) + "x" + Render(Get(d, "YBINNING").value, showReal)))
    ensures r.Success? ==> FilenameFirst(d) ==> FilenameFirst(r.value)
  {
    if !Has(d, "XBINNING") then Failure(KeyError("XBINNING"))
    else if !Has(d, "YBINNING") then Failure(KeyError("YBINNING"))
    else Success(Set(d, "BINNING", Str(Render(Get(d, "XBINNING").value, showReal) + "x"
                                        + Render(Get(d, "YBINNING").value, showReal))))
  }

  /** A binning written with `*` is written with `x`, and has no `*` left. */
  lemma BinningStarred(d: Record, showReal: real -> string, b: string)
    requires Get(d, "BINNING") == Some(Str(b))
    ensures WithBinning(d, showReal).Success?
    ensures var v := Get(WithBinning(d, showReal).value, "BINNING").value.s;
            |v| == |b| && '*' !in v
            && forall i :: 0 <= i < |b| ==> v[i] == if b[i] == '*' then 'x' else b[i]
  {
    ReplaceRemoves(b, '*', 'x');
  }

  /** Whole-number binnings of 2 and 2 give `"2x2"`. */
  lemma BinningTwoByTwo(d: Record, showReal: real -> string)
    requires !Has(d, "BINNING") && Get(d, "XBINNING") == Some(Int(2)) && Get(d, "YBINNING") == Some(Int(2))
    ensures WithBinning(d, showReal).Success?
    ensures Get(WithBinning(d, showReal).value, "BINNING") == Some(Str("2x2"))
  {
    assert NatToString(2) == "2";
    var two := Render(Int(2), showReal);
    assert two == "2";
    assert Get(d, "BINNING").None?;
    var r := BinningFromAxes(d, showReal);
    assert WithBinning(d, showReal) == r;
    assert r == Success(Set(d, "BINNING", Str(two + "x" + two)));
    assert two + "x" + two == "2x2";
  }

  // ---------------------------------------------------------------------
  // The whole record.

  /** The record of one file, from `{"FILENAME": filename}` to `IMGSIZE`:
      the first exception ends it. */
  function Derived(filename: string, header: Header, showReal: real -> string): (r: Result<Record, FilterError>)
    ensures r.Success? ==> Distinct(r.value) && FilenameFirst(r.value)
  {
    match Scoped(filename, header)
    case Failure(e) => Failure(e)
    case Success(d1) => Finish(d1, showReal)
  }

  /** The record of one file with `PIXSIZE` as intended. */
  function DerivedIntended(filename: string, header: Header, showReal: real -> string): (r: Result<Record, FilterError>)
    ensures r.Success? ==> Distinct(r.value) && FilenameFirst(r.value)
  {
    match Scoped(filename, header)
    case Failure(e) => Failure(e)
    case Success(d1) => FinishIntended(d1, showReal)
  }

  /** From the seeded record to `SITE`. */
  function Scoped(filename: string, header: Header): (r: Result<Record, FilterError>)
    ensures r.Success? ==> Distinct(r.value) && FilenameFirst(r.value)
    ensures r.Success? ==> Get(r.value, "SCOPE").Some?
  {
    var d0 := Seeded(filename, header);
    SeededKeys(filename, header);
    match ScopeKey(d0)
    case Failure(e) => Failure(e)
    case Success(ix) => Success(WithSite(Set(d0, "SCOPE", Str(ScopeName(ix)))))
  }

  /** From `RADEC` to `OBJRADEC`. */
  function Pointing(d1: Record): (r: Result<Record, FilterError>)
    requires Distinct(d1)
    ensures r.Success? ==> Distinct(r.value) && (FilenameFirst(d1) ==> FilenameFirst(r.value))
  {
    match WithPair(d1, "RADEC", "RA", "DEC")
    case Failure(e) => Failure(e)
    case Success(d2) => WithObjRaDec(d2)
  }

  /** From `EXPTIME` to `IMGSIZE`. */
  function Exposure(d4: Record, showReal: real -> string): (r: Result<Record, FilterError>)
    requires Distinct(d4)
    ensures r.Success? ==> Distinct(r.value) && (FilenameFirst(d4) ==> FilenameFirst(r.value))
  {
    match WithBinning(FoldExposure(d4, ExposureKeys), showReal)
    case Failure(e) => Failure(e)
    case Success(d6) => WithPair(d6, "IMGSIZE", "NAXIS1", "NAXIS2")
  }

  /** From `RADEC` to `IMGSIZE`, with `PIXSIZE` as the source computes it. */
  function Finish(d1: Record, showReal: real -> string): (r: Result<Record, FilterError>)
    requires Distinct(d1)
    ensures r.Success? ==> Distinct(r.value) && (FilenameFirst(d1) ==> FilenameFirst(r.value))
  {
    match Pointing(d1)
    case Failure(e) => Failure(e)
    case Success(d3) => Exposure(WithPixSize(d3), showReal)
  }

  /** From `RADEC` to `IMGSIZE`, with `PIXSIZE` as intended. */
  function FinishIntended(d1: Record, showReal: real -> string): (r: Result<Record, FilterError>)
    requires Distinct(d1)
    ensures r.Success? ==> Distinct(r.value) && (FilenameFirst(d1) ==> FilenameFirst(r.value))
  {
    match Pointing(d1)
    case Failure(e) => Failure(e)
    case Success(d3) => Exposure(WithPixSizeIntended(d3), showReal)
  }

  /** Two records that hold the same value under every key but `PIXSIZE`. */
  ghost predicate SameButPixSize(a: Record, b: Record)
  {
    forall k :: k != "PIXSIZE" ==> Get(a, k) == Get(b, k)
  }

  /** The keys the steps after `PIXSIZE` leave alone. */
  predicate PixSizeKey(k: string)
  {
    k == "PIXSIZE" || k == "PIXSIZE1" || k == "PIXSIZE2"
  }

  /** The exposure loop keeps records that differ only in `PIXSIZE` so. */
  lemma FoldSameButPixSize(a: Record, b: Record)
    requires Distinct(a) && Distinct(b) && SameButPixSize(a, b)
    ensures SameButPixSize(FoldExposure(a, ExposureKeys), FoldExposure(b, ExposureKeys))
  {
    var keys := ExposureKeys;
    ExposureKeysDistinct();
    forall k | k != "PIXSIZE" && k != "EXPTIME"
      ensures Get(FoldExposure(a, keys), k) == Get(FoldExposure(b, keys), k)
    {
      FoldExposureKey(a, keys, k);
      FoldExposureKey(b, keys, k);
    }
    LastTruthyFrame(a, b, keys);
    FoldExposureTime(a, keys);
    FoldExposureTime(b, keys);
  }

  /** The exposure loop keeps `PIXSIZE` and the two sizes. */
  lemma FoldKeepsPixSize(a: Record, k: string)
    requires Distinct(a) && PixSizeKey(k)
    ensures Get(FoldExposure(a, ExposureKeys), k) == Get(a, k)
  {
    ExposureKeysDistinct();
    FoldExposureKey(a, ExposureKeys, k);
  }

  /** `EXPTIME` to `IMGSIZE` keeps `PIXSIZE` and the two sizes. */
  lemma ExposureKeepsPixSize(a: Record, k: string, showReal: real -> string)
    requires Distinct(a) && PixSizeKey(k)
    ensures Exposure(a, showReal).Success? ==> Get(Exposure(a, showReal).value, k) == Get(a, k)
  {
    FoldKeepsPixSize(a, k);
  }

  /** `EXPTIME` to `IMGSIZE` never reads `PIXSIZE`, so records that differ
      only there fail together and stay so. */
  lemma ExposureSameButPixSize(a: Record, b: Record, showReal: real -> string)
    requires Distinct(a) && Distinct(b) && SameButPixSize(a, b)
    ensures Exposure(a, showReal).Success? <==> Exposure(b, showReal).Success?
    ensures Exposure(a, showReal).Success? ==>
              SameButPixSize(Exposure(a, showReal).value, Exposure(b, showReal).value)
  {
    var fa, fb := FoldExposure(a, ExposureKeys), FoldExposure(b, ExposureKeys);
    FoldSameButPixSize(a, b);
    BinningSameButPixSize(fa, fb, showReal);
    var ba, bb := WithBinning(fa, showReal), WithBinning(fb, showReal);
    if ba.Success? {
      ImgSizeSameButPixSize(ba.value, bb.value);
    }
  }

  lemma BinningSameButPixSize(a: Record, b: Record, showReal: real -> string)
    requires SameButPixSize(a, b)
    ensures WithBinning(a, showReal).Success? <==> WithBinning(b, showReal).Success?
    ensures WithBinning(a, showReal).Success? ==>
              SameButPixSize(WithBinning(a, showReal).value, WithBinning(b, showReal).value)
  {
    assert Get(a, "BINNING") == Get(b, "BINNING");
    assert Get(a, "XBINNING") == Get(b, "XBINNING") && Get(a, "YBINNING") == Get(b, "YBINNING");
  }

  lemma ImgSizeSameButPixSize(a: Record, b: Record)
    requires SameButPixSize(a, b)
    ensures WithPair(a, "IMGSIZE", "NAXIS1", "NAXIS2").Success? <==> WithPair(b, "IMGSIZE", "NAXIS1", "NAXIS2").Success?
    ensures WithPair(a, "IMGSIZE", "NAXIS1", "NAXIS2").Success? ==> SameButPixSize(WithPair(a, "IMGSIZE", "NAXIS1", "NAXIS2").value, WithPair(b, "IMGSIZE", "NAXIS1", "NAXIS2").value)
  {
    assert Get(a, "NAXIS1") == Get(b, "NAXIS1") && Get(a, "NAXIS2") == Get(b, "NAXIS2");
  }

  /** From `RADEC` on, the source and the intended record fail together and
      differ only in `PIXSIZE`. */
  lemma FinishSameButPixSize(d1: Record, showReal: real -> string)
    requires Distinct(d1)
    ensures Finish(d1, showReal).Success? <==> FinishIntended(d1, showReal).Success?
    ensures Finish(d1, showReal).Success? ==>
              SameButPixSize(Finish(d1, showReal).value, FinishIntended(d1, showReal).value)
  {
    var p := Pointing(d1);
    if p.Success? {
      var d3 := p.value;
      var a, b := WithPixSize(d3), WithPixSizeIntended(d3);
      assert SameButPixSize(a, b);
      ExposureSameButPixSize(a, b, showReal);
    }
  }

  /** There, for non-square pixels the source's pair repeats the horizontal
      size where the intended one holds both. */
  lemma FinishPixSizeValues(d1: Record, showReal: real -> string)
    requires Distinct(d1)
    ensures Finish(d1, showReal).Success? && FinishIntended(d1, showReal).Success? ==>
              var w, c := Finish(d1, showReal).value, FinishIntended(d1, showReal).value;
              Has(w, "PIXSIZE1") && Has(w, "PIXSIZE2") ==>
                var x, y := Get(w, "PIXSIZE1").value, Get(w, "PIXSIZE2").value;
                && Get(w, "PIXSIZE") == Some(if PyEq(x, y) then x else Pair(x, x))
                && Get(c, "PIXSIZE") == Some(if PyEq(x, y) then x else Pair(x, y))
  {
    var p := Pointing(d1);
    if p.Success? {
      var d3 := p.value;
      var a, b := WithPixSize(d3), WithPixSizeIntended(d3);
      ExposureKeepsPixSize(a, "PIXSIZE", showReal);
      ExposureKeepsPixSize(b, "PIXSIZE", showReal);
      ExposureKeepsPixSize(a, "PIXSIZE1", showReal);
      ExposureKeepsPixSize(a, "PIXSIZE2", showReal);
      if Has(d3, "PIXSIZE1") && Has(d3, "PIXSIZE2") {
        PixSizeBoth(d3);
      }
    }
  }

  /** Both `PIXSIZE` steps, on a record that holds both sizes. */
  lemma PixSizeBoth(d: Record)
    requires Has(d, "PIXSIZE1") && Has(d, "PIXSIZE2")
    ensures var x, y := Get(d, "PIXSIZE1").value, Get(d, "PIXSIZE2").value;
            && Get(WithPixSize(d), "PIXSIZE") == Some(if PyEq(x, y) then x else Pair(x, x))
            && Get(WithPixSizeIntended(d), "PIXSIZE") == Some(if PyEq(x, y) then x else Pair(x, y))
  {
  }

  /** The record of a file as the source builds it and as intended differ
      only in `PIXSIZE`. */
  lemma DerivedPixSize(filename: string, header: Header, showReal: real -> string)
    ensures Derived(filename, header, showReal).Success? <==> DerivedIntended(filename, header, showReal).Success?
    ensures Derived(filename, header, showReal).Success? ==>
              SameButPixSize(Derived(filename, header, showReal).value, DerivedIntended(filename, header, showReal).value)
  {
    var s1 := Scoped(filename, header);
    if s1.Success? {
      FinishSameButPixSize(s1.value, showReal);
    }
  }

  /** `rdict = {"FILENAME": filename}`, the copy of the chosen columns, and
      `rdict.update(fileheader)`. */
  method SeedRecord(filename: string, header: Header) returns (rdict: Record)
    ensures rdict == Seeded(filename, header)
  {
    rdict := [("FILENAME", Str(filename))];
    ghost var seed := rdict;
    var j := 0;
    while j < |header|
      invariant 0 <= j <= |header|
      invariant SrcPass(rdict, header[j..]) == SrcPass(seed, header)
    {
      var name := header[j].0;
      assert header[j..][1..] == header[j + 1..];
      if name in SrcColumns {
        rdict := Set(rdict, name, header[j].1);
      }
      j := j + 1;
    }
    assert header[j..] == [];
    rdict := Update(rdict, header);
  }

  /** The loop over the nonstandard exposure keys. */
  method FoldExposureKeys(d: Record) returns (rdict: Record)
    requires Distinct(d)
    ensures rdict == FoldExposure(d, ExposureKeys)
  {
    rdict := d;
    var k := 0;
    while k < |ExposureKeys|
      invariant 0 <= k <= |ExposureKeys|
      invariant Distinct(rdict)
      invariant FoldExposure(rdict, ExposureKeys[k..]) == FoldExposure(d, ExposureKeys)
    {
      var f := ExposureKeys[k];
      assert ExposureKeys[k..][1..] == ExposureKeys[k + 1..];
      ghost var next := FoldOne(rdict, f);
      var v := Get(rdict, f);
      if v.Some? && Truthy(v.value) {
        rdict := Set(rdict, "EXPTIME", v.value);
        rdict := Del(rdict, f);
      }
      assert rdict == next;
      k := k + 1;
    }
    assert ExposureKeys[k..] == [];
  }

  /** The body of the loop over the files up to the formatting of the output
      directory: it rewrites `rdict` key by key. */
  method DeriveRecord(filename: string, header: Header, showReal: real -> string)
    returns (res: Result<Record, FilterError>)
    ensures res == Derived(filename, header, showReal)
  {
    var rdict := SeedRecord(filename, header);
    SeededKeys(filename, header);
    var ix := ScopeKey(rdict);
    if ix.Failure? {
      return Failure(ix.error);
    }
    rdict := Set(rdict, "SCOPE", Str(ScopeName(ix.value)));
    rdict := WithSite(rdict);
    var step := WithPair(rdict, "RADEC", "RA", "DEC");
    if step.Failure? {
      return Failure(step.error);
    }
    step := WithObjRaDec(step.value);
    if step.Failure? {
      return Failure(step.error);
    }
    rdict := WithPixSize(step.value);
    rdict := FoldExposureKeys(rdict);
    step := WithBinning(rdict, showReal);
    if step.Failure? {
      return Failure(step.error);
    }
    res := WithPair(step.value, "IMGSIZE", "NAXIS1", "NAXIS2");
  }

  // ---------------------------------------------------------------------
  // The output directory.

  /** A piece of a format string: text, or a `{KEY}` replacement field. */
  datatype Part = Lit(text: string) | Field(key: string)

  /** A format string, as the pieces `str.format` reads it into. */
  type Template = seq<Part>

  /** `"{SCOPE}/{OBJECT}_{FILTER}"` */
  const DefaultFormat: Template := [Field("SCOPE"), Lit("/"), Field("OBJECT"), Lit("_"), Field("FILTER")]

  predicate MissingAt(t: Template, d: Record, i: int)
    requires 0 <= i < |t|
  {
    t[i].Field? && !Has(d, t[i].key)
  }

  /** `template.format(**rdict)`: every field shows the record's value; the
      first field whose key the record lacks raises. */
  function Format(t: Template, d: Record, showReal: real -> string): (r: Result<string, FilterError>)
    ensures r.Failure? ==> r.error.KeyError? && !Has(d, r.error.key) && Field(r.error.key) in t
    ensures (forall k :: Field(k) in t ==> Has(d, k)) ==> r.Success?
    decreases |t|
  {
    if t == [] then Success("")
    else
      var head: Result<string, FilterError> :=
        match t[0]
        case Lit(text) => Success(text)
        case Field(k) => if Has(d, k) then Success(Render(Get(d, k).value, showReal)) else Failure(KeyError(k));
      match head
      case Failure(e) => Failure(e)
      case Success(h) =>
        match Format(t[1..], d, showReal)
        case Failure(e) => Failure(e)
        case Success(rest) => Success(h + rest)
  }

  /** Formatting fails exactly when a field names a missing key, and then with
      the `KeyError` of the first such field. */
  lemma {:induction false} FormatFails(t: Template, d: Record, showReal: real -> string)
    ensures Format(t, d, showReal).Failure? <==> exists i :: 0 <= i < |t| && MissingAt(t, d, i)
    decreases |t|
  {
    if t != [] {
      FormatFails(t[1..], d, showReal);
      if exists i :: 0 <= i < |t| && MissingAt(t, d, i) {
        var i :| 0 <= i < |t| && MissingAt(t, d, i);
        if i > 0 {
          assert MissingAt(t[1..], d, i - 1);
        }
      }
      if Format(t, d, showReal).Failure? && !MissingAt(t, d, 0) {
        var i :| 0 <= i < |t[1..]| && MissingAt(t[1..], d, i);
        assert MissingAt(t, d, i + 1);
      }
    }
  }

  /** The error is the `KeyError` of the first field whose key is missing. */
  lemma {:induction false} FormatFirstMissing(t: Template, d: Record, showReal: real -> string)
    ensures Format(t, d, showReal).Failure? ==>
              exists i :: 0 <= i < |t| && MissingAt(t, d, i) && Format(t, d, showReal).error == KeyError(t[i].key)
                          && forall j :: 0 <= j < i ==> !MissingAt(t, d, j)
    decreases |t|
  {
    if t != [] && Format(t, d, showReal).Failure? && !MissingAt(t, d, 0) {
      FormatFirstMissing(t[1..], d, showReal);
      var i :| 0 <= i < |t[1..]| && MissingAt(t[1..], d, i) && Format(t[1..], d, showReal).error == KeyError(t[1..][i].key)
               && forall j :: 0 <= j < i ==> !MissingAt(t[1..], d, j);
      assert MissingAt(t, d, i + 1);
      forall j | 0 <= j < i + 1 ensures !MissingAt(t, d, j) {
        if j > 0 {
          assert !MissingAt(t[1..], d, j - 1);
        }
      }
    }
  }

  /** The default format gives `<SCOPE>/<OBJECT>_<FILTER>`. */
  lemma FormatDefault(d: Record, showReal: real -> string, scope: string, obj: string, filter: string)
    requires Get(d, "SCOPE") == Some(Str(scope)) && Get(d, "OBJECT") == Some(Str(obj))
    requires Get(d, "FILTER") == Some(Str(filter))
    ensures Format(DefaultFormat, d, showReal) == Success(scope + "/" + obj + "_" + filter)
  {
    var t := DefaultFormat;
    assert t[1..][1..][1..][1..] == [Field("FILTER")];
    assert t[1..][1..][1..][1..][1..] == [];
    assert filter + "" == filter;
    assert Format(t[1..][1..][1..][1..], d, showReal) == Success(filter);
    assert Format(t[1..][1..][1..], d, showReal) == Success("_" + filter);
    assert Format(t[1..][1..], d, showReal) == Success(obj + ("_" + filter));
    assert Format(t[1..], d, showReal) == Success("/" + (obj + ("_" + filter)));
    assert scope + ("/" + (obj + ("_" + filter))) == scope + "/" + obj + "_" + filter;
  }

  /** The output directory: the formatted template with every space turned
      into an underscore. */
  function OutputDir(t: Template, d: Record, showReal: real -> string): (r: Result<string, FilterError>)
    ensures r.Failure? <==> Format(t, d, showReal).Failure?
    ensures r.Success? ==> ' ' !in r.value && |r.value| == |Format(t, d, showReal).value|
    ensures r.Success? ==>
              forall i :: 0 <= i < |r.value| ==>
                r.value[i] == if Format(t, d, showReal).value[i] == ' ' then '_' else Format(t, d, showReal).value[i]
  {
    match Format(t, d, showReal)
    case Failure(e) => Failure(e)
    case Success(text) =>
      ReplaceRemoves(text, ' ', '_');
      Success(Replace(text, ' ', '_'))
  }

  /** POSIX `os.path.join(a, b)`: an absolute `b` replaces `a`, otherwise a
      separator is put between them unless `a` is empty or already ends in one. */
  function Join(a: string, b: string): (p: string)
    ensures |b| <= |p| && p[|p| - |b|..] == b
  {
    if |b| > 0 && b[0] == '/' then b
    else if a == [] || a[|a| - 1] == '/' then a + b
    else a + "/" + b
  }

  /** A relative name joined to a directory lands inside it. */
  lemma JoinRelative(a: string, b: string)
    requires a != [] && (b == [] || b[0] != '/')
    ensures var p := Join(a, b);
            && a <= p && p[|p| - |b|..] == b
            && (p == a + b || p == a + "/" + b)
            && p[|p| - |b| - 1] == '/'
  {
  }

  /** A `os.makedirs(to_dir)` followed by `os.rename(from, to)`. */
  datatype Move = Move(dir: string, from: string, to: string)

  /** The move as the source performs it: the file is renamed from the
      current directory, whatever directory its header was read from. */
  function MoveOf(srcdir: string, nf: string, filename: string): (m: Move)
    ensures m.from == filename
    ensures m.dir == nf && m.to == Join(nf, filename)
  {
    Move(nf, filename, Join(nf, filename))
  }

  /** The move as intended: the file renamed is the one whose header was read. */
  function MoveOfIntended(srcdir: string, nf: string, filename: string): (m: Move)
    ensures m.from == Join(srcdir, filename)
    ensures m.dir == nf && m.to == Join(nf, filename)
  {
    Move(nf, Join(srcdir, filename), Join(nf, filename))
  }

  /** A source directory other than the current one: not empty and not the
      default `.` (nor `./`), for which `join` names the same file. */
  predicate OtherThanCurrent(srcdir: string)
  {
    srcdir != [] && srcdir != "." && srcdir != "./"
  }

  /** With a source directory other than the current one, the file moved is
      not the file read: a relative name joined to a directory is longer than
      the name alone. */
  lemma MoveAsWrittenMissesSource(srcdir: string, nf: string, filename: string)
    requires OtherThanCurrent(srcdir) && (filename == [] || filename[0] != '/')
    ensures MoveOf(srcdir, nf, filename).from == filename
    ensures MoveOf(srcdir, nf, filename).from != Join(srcdir, filename)
  {
    JoinRelative(srcdir, filename);
    assert |Join(srcdir, filename)| > |filename|;
  }

  /** The concrete case: `--srcdir raw` and file `m31.fits`. */
  lemma MoveAsWrittenExample()
    ensures Join("raw", "m31.fits") == "raw/m31.fits"
    ensures MoveOf("raw", "a5_80x/M31_L", "m31.fits").from == "m31.fits"
  {
    assert "raw" + "/" + "m31.fits" == "raw/m31.fits";
  }

  /** As intended, the file moved is the file read, and it goes into the
      output directory under its own name. */
  lemma MoveIntended(srcdir: string, nf: string, filename: string)
    requires nf != [] && filename != [] && filename[0] != '/'
    ensures MoveOfIntended(srcdir, nf, filename).from == Join(srcdir, filename)
    ensures var to := MoveOfIntended(srcdir, nf, filename).to;
            nf <= to && to[|to| - |filename|..] == filename
  {
    JoinRelative(nf, filename);
  }

  // ---------------------------------------------------------------------
  // The loop over the files.

  /** The command line: source directory, output format, and `--move`. */
  datatype Job = Job(srcdir: string, outdir: Template, move: bool, showReal: real -> string)

  /** One file: its record and the move into its output directory, or the
      exception that ends the run. */
  function FileResult(job: Job, filename: string, header: Header): (r: Result<(Record, Move), FilterError>)
    ensures r.Success? ==> r.value.1.from == filename && FilenameFirst(r.value.0)
  {
    match Derived(filename, header, job.showReal)
    case Failure(e) => Failure(e)
    case Success(rec) =>
      match OutputDir(job.outdir, rec, job.showReal)
      case Failure(e) => Failure(e)
      case Success(nf) => Success((rec, MoveOf(job.srcdir, nf, filename)))
  }

  /** One file with `PIXSIZE` and the move as intended. */
  function FileResultIntended(job: Job, filename: string, header: Header): (r: Result<(Record, Move), FilterError>)
    ensures r.Success? ==> r.value.1.from == Join(job.srcdir, filename) && FilenameFirst(r.value.0)
  {
    match DerivedIntended(filename, header, job.showReal)
    case Failure(e) => Failure(e)
    case Success(rec) =>
      match OutputDir(job.outdir, rec, job.showReal)
      case Failure(e) => Failure(e)
      case Success(nf) => Success((rec, MoveOfIntended(job.srcdir, nf, filename)))
  }

  /** The outcomes of the files, in order. */
  function Results(job: Job, files: seq<string>, headers: seq<Header>): (rs: seq<Result<(Record, Move), FilterError>>)
    requires |headers| == |files|
    ensures |rs| == |files|
  {
    seq(|files|, i requires 0 <= i < |files| => FileResult(job, files[i], headers[i]))
  }

  /** The outcomes of the files, in order, with `PIXSIZE` and the move as intended. */
  function ResultsIntended(job: Job, files: seq<string>, headers: seq<Header>): (rs: seq<Result<(Record, Move), FilterError>>)
    requires |headers| == |files|
    ensures |rs| == |files|
  {
    seq(|files|, i requires 0 <= i < |files| => FileResultIntended(job, files[i], headers[i]))
  }

  /** What a run leaves: the records collected, the moves made, and the
      exception that stopped it, if any. */
  datatype FilterRun = FilterRun(records: seq<Record>, moves: seq<Move>, error: Option<FilterError>)

  /** One turn of the loop. */
  function FilterStep(acc: FilterRun, r: Result<(Record, Move), FilterError>, move: bool): FilterRun
  {
    if acc.error.Some? then acc
    else
      match r
      case Failure(e) => acc.(error := Some(e))
      case Success(out) => FilterRun(acc.records + [out.0], acc.moves + (if move then [out.1] else []), None)
  }

  /** The run over the files whose outcomes are `rs`. */
  function FilterOf(rs: seq<Result<(Record, Move), FilterError>>, move: bool): FilterRun
  {
    if rs == [] then FilterRun([], [], None)
    else FilterStep(FilterOf(rs[..|rs| - 1], move), rs[|rs| - 1], move)
  }

  /** One file: the record, then the output directory. */
  method ProcessFile(job: Job, filename: string, header: Header) returns (r: Result<(Record, Move), FilterError>)
    ensures r == FileResult(job, filename, header)
  {
    var rec := DeriveRecord(filename, header, job.showReal);
    if rec.Failure? {
      return Failure(rec.error);
    }
    var nf := OutputDir(job.outdir, rec.value, job.showReal);
    if nf.Failure? {
      return Failure(nf.error);
    }
    r := Success((rec.value, MoveOf(job.srcdir, nf.value, filename)));
  }

  /** The loop of `main` over the files. */
  method FilterFiles(job: Job, files: seq<string>, headers: seq<Header>) returns (run: FilterRun)
    requires |headers| == |files|
    ensures run == FilterOf(Results(job, files, headers), job.move)
  {
    ghost var rs := Results(job, files, headers);
    var records: seq<Record> := [];
    var moves: seq<Move> := [];
    var i := 0;
    while i < |files|
      invariant 0 <= i <= |files|
      invariant FilterOf(rs[..i], job.move) == FilterRun(records, moves, None)
    {
      var r := ProcessFile(job, files[i], headers[i]);
      assert r == rs[i] by { assert rs[i] == FileResult(job, files[i], headers[i]); }
      FilterRunStep(rs, i, records, moves, job.move);
      if r.Failure? {
        run := FilterRun(records, moves, Some(r.error));
        return;
      }
      records := records + [r.value.0];
      if job.move {
        moves := moves + [r.value.1];
      }
      i := i + 1;
    }
    assert rs[..i] == rs;
    run := FilterRun(records, moves, None);
  }

  /** One turn of the loop of `FilterFiles`: a file that raises ends the run
      with its exception; otherwise its record, and its move under `--move`,
      are appended. */
  lemma FilterRunStep(rs: seq<Result<(Record, Move), FilterError>>, i: nat, records: seq<Record>, moves: seq<Move>, move: bool)
    requires i < |rs| && FilterOf(rs[..i], move) == FilterRun(records, moves, None)
    ensures rs[i].Failure? ==> FilterOf(rs, move) == FilterRun(records, moves, Some(rs[i].error))
    ensures rs[i].Success? ==>
              FilterOf(rs[..i + 1], move)
              == FilterRun(records + [rs[i].value.0], moves + (if move then [rs[i].value.1] else []), None)
  {
    FilterOfSnoc(rs, i, move);
    if rs[i].Failure? {
      FilterFailureSticks(rs, i + 1, move);
    }
  }

  lemma FilterOfSnoc(rs: seq<Result<(Record, Move), FilterError>>, i: nat, move: bool)
    requires i < |rs|
    ensures FilterOf(rs[..i + 1], move) == FilterStep(FilterOf(rs[..i], move), rs[i], move)
  {
    assert rs[..i + 1][..i] == rs[..i];
  }

  /** Once a file has raised, the rest of the files change nothing. */
  lemma {:induction false} FilterFailureSticks(rs: seq<Result<(Record, Move), FilterError>>, n: nat, move: bool)
    requires n <= |rs| && FilterOf(rs[..n], move).error.Some?
    ensures FilterOf(rs, move) == FilterOf(rs[..n], move)
    decreases |rs|
  {
    if n < |rs| {
      var init := rs[..|rs| - 1];
      assert init[..n] == rs[..n];
      FilterFailureSticks(init, n, move);
    } else {
      assert rs[..n] == rs;
    }
  }

  /** The run collects the record of every file up to the first that raises,
      in order, and stops there with that file's exception. */
  lemma {:induction false} FilterOutcome(rs: seq<Result<(Record, Move), FilterError>>, move: bool)
    ensures var run := FilterOf(rs, move);
      && |run.records| <= |rs|
      && (forall i :: 0 <= i < |run.records| ==> rs[i].Success? && run.records[i] == rs[i].value.0)
      && (run.error.None? <==> |run.records| == |rs|)
      && (run.error.Some? ==> rs[|run.records|] == Failure(run.error.value))
    decreases |rs|
  {
    if rs != [] {
      var n := |rs| - 1;
      var init := rs[..n];
      FilterOutcome(init, move);
      var acc := FilterOf(init, move);
      assert FilterOf(rs, move) == FilterStep(acc, rs[n], move);
      assert forall i :: 0 <= i < n ==> init[i] == rs[i];
    }
  }

  /** It moves exactly the collected files, in the same order, and only
      under `--move`. */
  lemma {:induction false} FilterMoves(rs: seq<Result<(Record, Move), FilterError>>, move: bool)
    ensures var run := FilterOf(rs, move);
      && |run.moves| == (if move then |run.records| else 0)
      && (forall i :: 0 <= i < |run.moves| ==> i < |rs| && rs[i].Success? && run.moves[i] == rs[i].value.1)
    decreases |rs|
  {
    if rs != [] {
      var n := |rs| - 1;
      var init := rs[..n];
      FilterMoves(init, move);
      FilterOutcome(init, move);
      var acc := FilterOf(init, move);
      assert FilterOf(rs, move) == FilterStep(acc, rs[n], move);
      assert forall i :: 0 <= i < n ==> init[i] == rs[i];
    }
  }
}
