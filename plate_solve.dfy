/** `solve_image` and the batch loop of `main` (astroprobe.py): one record
    per image from the solver's report and the image's FITS header, and the
    list of records the batch writes out.  Running the solver, the temporary
    directory, the clock and the file reads are parameters. */
module PlateSolve {
  import opened Outcome
  import opened Text
  import opened PyDict
  import opened HeaderValues
  import opened SolverArgs
  import opened ReportParser

  /** The `hdr` summary: the pointing from the header, the object name, and
      the field of view in degrees computed from the image size and the
      per-pixel scale. */
  datatype HdrSummary = HdrSummary(dec: HeaderValue, ra: HeaderValue, obj: HeaderValue, fov: (real, real))

  /** A result record.  `solved` is the `solved` key, which a record read back
      from a report transcript lacks as the source builds it; `report` holds
      the keys `parse_buf` merges in. */
  datatype SolveRecord = SolveRecord(
    file: string,
    solveTime: real,
    solved: Option<bool>,
    hdr: Option<HdrSummary>,
    sources: Option<nat>,
    report: Option<Report>)

  /** The exceptions that escape `solve_image` or the loop of `main`. */
  datatype SolveError =
    | HeaderTypeError   // a product of two header values that are not both numbers
    | ReportError(cause: ParseError)
    | MissingSolvedKey  // `solve_res["solved"]` on a record without that key

  const NotSolvedMarker := "Did not solve"

  /** `round(a * b / 3600, 6)` for two header values; `None` where Python
      raises `TypeError`. */
  function FovPart(a: HeaderValue, b: HeaderValue): (r: Option<real>)
    ensures r.Some? <==> Numeric(a).Some? && Numeric(b).Some?
  {
    var x, y := Numeric(a), Numeric(b);
    if x.Some? && y.Some? then Some(Degrees(x.value, y.value)) else None
  }

  /** `n * s / 3600`: a size in pixels times a scale in arcseconds per pixel,
      in degrees. */
  function Degrees(n: real, s: real): real
  {
    n * s / 3600.0
  }

  /** The `hdr` entry, evaluated in the order the dict display evaluates it:
      a missing key (`KeyError`, caught) leaves the entry out, a product of
      non-numbers (`TypeError`, not caught) escapes. */
  function HdrOf(h: Header): (r: Result<Option<HdrSummary>, SolveError>)
    ensures r.Failure? ==> r.error == HeaderTypeError
    ensures r.Success? && r.value.Some? ==> HasAllHdrKeys(h)
  {
    if !Has(h, "DEC") || !Has(h, "RA") || !Has(h, "NAXIS1") || !Has(h, "SECPIX1") then Success(None)
    else
      match FovPart(Get(h, "NAXIS1").value, Get(h, "SECPIX1").value)
      case None => Failure(HeaderTypeError)
      case Some(w) =>
        if !Has(h, "NAXIS2") || !Has(h, "SECPIX2") then Success(None)
        else
          match FovPart(Get(h, "NAXIS2").value, Get(h, "SECPIX2").value)
          case None => Failure(HeaderTypeError)
          case Some(ht) =>
            Success(Some(HdrSummary(Get(h, "DEC").value, Get(h, "RA").value,
                                    GetOr(h, "OBJECT", Str("")), (w, ht))))
  }

  ghost predicate HasAllHdrKeys(h: Header)
  {
    Has(h, "DEC") && Has(h, "RA") && Has(h, "NAXIS1") && Has(h, "SECPIX1")
    && Has(h, "NAXIS2") && Has(h, "SECPIX2")
  }

  /** The `hdr` entry is all or nothing: present exactly when the six keys
      are, holding their values and the object name with `""` as default. */
  lemma HdrAllOrNothing(h: Header)
    ensures HdrOf(h).Success? ==> (HdrOf(h).value.Some? <==> HasAllHdrKeys(h))
    ensures HdrOf(h).Success? && HdrOf(h).value.Some? ==>
              var x := HdrOf(h).value.value;
              && Get(h, "DEC") == Some(x.dec) && Get(h, "RA") == Some(x.ra)
              && (x.obj == if Has(h, "OBJECT") then Get(h, "OBJECT").value else Str(""))
    ensures HdrOf(h).Failure? ==>
              Has(h, "NAXIS1") && Has(h, "SECPIX1") && Has(h, "DEC") && Has(h, "RA")
              && (Numeric(Get(h, "NAXIS1").value).None? || Numeric(Get(h, "SECPIX1").value).None?
                  || Numeric(Get(h, "NAXIS2").value).None? || Numeric(Get(h, "SECPIX2").value).None?)
  {
  }

  /** A header with the six keys holding numbers always yields the summary,
      with the field of view computed from them. */
  lemma HdrOfNumbers(h: Header, n1: real, s1: real, n2: real, s2: real)
    requires HasAllHdrKeys(h)
    requires Numeric(Get(h, "NAXIS1").value) == Some(n1) && Numeric(Get(h, "SECPIX1").value) == Some(s1)
    requires Numeric(Get(h, "NAXIS2").value) == Some(n2) && Numeric(Get(h, "SECPIX2").value) == Some(s2)
    ensures HdrOf(h).Success? && HdrOf(h).value.Some?
    ensures HdrOf(h).value.value.fov == (Degrees(n1, s1), Degrees(n2, s2))
  {
    var a1, b1 := Get(h, "NAXIS1").value, Get(h, "SECPIX1").value;
    var a2, b2 := Get(h, "NAXIS2").value, Get(h, "SECPIX2").value;
    FovPartOfNumbers(a1, b1, n1, s1);
    FovPartOfNumbers(a2, b2, n2, s2);
  }

  lemma FovPartOfNumbers(a: HeaderValue, b: HeaderValue, x: real, y: real)
    requires Numeric(a) == Some(x) && Numeric(b) == Some(y)
    ensures FovPart(a, b) == Some(Degrees(x, y))
  {
  }

  /** The record `solve_image` returns for image `img`, given what the
      solver printed, the elapsed time and the image's header. */
  function SolveOutcome(img: string, elapsed: real, output: string, header: Header)
    : (r: Result<SolveRecord, SolveError>)
    ensures r.Failure? ==> r.error == HeaderTypeError || r.error.ReportError?
    ensures r.Success? ==> r.value.file == img && r.value.solved == Some(!Contains(output, NotSolvedMarker))
  {
    match HdrOf(header)
    case Failure(e) => Failure(e)
    case Success(hdr) =>
      var rv := SolveRecord(img, elapsed, Some(false), hdr, Search(output, SourcesAt), None);
      if Contains(output, NotSolvedMarker) then Success(rv)
      else
        match ParseBuf(output)
        case Failure(e) => Failure(ReportError(e))
        case Success(report) => Success(rv.(solved := Some(true), report := Some(report)))
  }

  /** `solve_image`: the solver's command line, then the record built key by
      key as the source builds it. */
  method SolveImage(img: string, wd: string, opts: Options, elapsed: real, output: string, header: Header)
    returns (argv: seq<string>, result: Result<SolveRecord, SolveError>)
    ensures argv == SolverArgv(wd, img, opts)
    ensures result == SolveOutcome(img, elapsed, output, header)
  {
    argv := BuildSolverArgs(wd, img, opts);
    var m := Search(output, SourcesAt);
    var rv := SolveRecord(img, elapsed, Some(false), None, None, None);
    var hdr := HdrOf(header);
    if hdr.Failure? {
      return argv, Failure(hdr.error);
    }
    if hdr.value.Some? {
      rv := rv.(hdr := hdr.value);
    }
    if m.Some? {
      rv := rv.(sources := m);
    }
    if !Contains(output, NotSolvedMarker) {
      rv := rv.(solved := Some(true));
      var parsed := ParseBuf(output);
      if parsed.Failure? {
        return argv, Failure(ReportError(parsed.error));
      }
      rv := rv.(report := Some(parsed.value));
    }
    result := Success(rv);
  }

  /** The verdict: the marker alone decides it; an unsolved record carries no
      report keys, a solved one carries those of `parse_buf`, whose failure
      escapes; `file`, `solve_time`, `sources` and `hdr` are always set as the
      header and the first source count dictate. */
  lemma SolveVerdict(img: string, elapsed: real, output: string, header: Header)
    ensures var r := SolveOutcome(img, elapsed, output, header);
            r.Failure? <==> HdrOf(header).Failure?
                            || (!Contains(output, NotSolvedMarker) && ParseBuf(output).Failure?)
    ensures var r := SolveOutcome(img, elapsed, output, header);
            r.Success? ==>
              && r.value.file == img && r.value.solveTime == elapsed
              && r.value.solved == Some(!Contains(output, NotSolvedMarker))
              && (r.value.report.Some? <==> !Contains(output, NotSolvedMarker))
              && (r.value.report.Some? ==> ParseBuf(output) == Success(r.value.report.value))
              && r.value.hdr == HdrOf(header).value
              && r.value.sources == Search(output, SourcesAt)
  {
  }

  /** `sources` is present exactly when some position of the output starts
      `simplexy: found N sources`, and holds the first such count. */
  lemma SolveSources(img: string, elapsed: real, output: string, header: Header)
    requires SolveOutcome(img, elapsed, output, header).Success?
    ensures var s := SolveOutcome(img, elapsed, output, header).value.sources;
            && (s.None? <==> forall k :: 0 <= k <= |output| ==> SourcesAt(output[k..]).None?)
            && (s.Some? ==> exists k :: 0 <= k <= |output| && SourcesAt(output[k..]) == s
                                       && forall j :: 0 <= j < k ==> SourcesAt(output[j..]).None?)
  {
    SolveVerdict(img, elapsed, output, header);
    var _ := Search(output, SourcesAt);
  }

  // ---------------------------------------------------------------------
  // The loop of `main`.

  /** What the outside world supplies for one input file: the solver's
      working directory, what it printed (or, with `--test-file`, the text of
      the file), the elapsed time and the image's header. */
  datatype FileInput = FileInput(wd: string, output: string, elapsed: real, header: Header)

  /** The only option `main` passes to the solver. */
  const MainOptions: Options := [("guess_scale", TrueValue)]

  /** A `--test-file` record as the source builds it: the keys of `parse_buf`
      plus `file` and `solve_time`, and no `solved` key. */
  function TranscriptRecord(f: string, text: string): (r: Result<SolveRecord, SolveError>)
    ensures r.Success? <==> ParseBuf(text).Success?
    ensures r.Success? ==> r.value.solved.None? && r.value.file == f
  {
    match ParseBuf(text)
    case Failure(e) => Failure(ReportError(e))
    case Success(report) => Success(SolveRecord(f, 0.0, None, None, None, Some(report)))
  }

  /** A `--test-file` record as intended: a transcript that parses is the
      report of a solved field, so it is marked solved. */
  function TranscriptRecordIntended(f: string, text: string): (r: Result<SolveRecord, SolveError>)
    ensures r.Success? <==> ParseBuf(text).Success?
    ensures r.Success? ==> r.value.solved == Some(true) && r.value.report == Some(ParseBuf(text).value)
                           && r.value.file == f
  {
    match ParseBuf(text)
    case Failure(e) => Failure(ReportError(e))
    case Success(report) => Success(SolveRecord(f, 0.0, Some(true), None, None, Some(report)))
  }

  /** `solve_res["solved"] or args.verbose > 1`: the lookup comes first, so a
      record without the key raises `KeyError` whatever the verbosity. */
  function Keep(rec: SolveRecord, verbose: nat): (r: Result<bool, SolveError>)
    ensures r.Failure? <==> rec.solved.None?
    ensures r.Success? ==> (r.value <==> rec.solved == Some(true) || verbose > 1)
  {
    match rec.solved
    case None => Failure(MissingSolvedKey)
    case Some(b) => Success(b || verbose > 1)
  }

  /** The record of one file, as the loop body builds it. */
  function PerFile(f: string, input: FileInput, testFile: bool): Result<SolveRecord, SolveError>
  {
    if testFile then TranscriptRecord(f, input.output)
    else SolveOutcome(f, input.elapsed, input.output, input.header)
  }

  /** The record of one file with the `--test-file` record as intended. */
  function PerFileIntended(f: string, input: FileInput, testFile: bool): Result<SolveRecord, SolveError>
  {
    if testFile then TranscriptRecordIntended(f, input.output)
    else SolveOutcome(f, input.elapsed, input.output, input.header)
  }

  /** The list `main` writes out after the per-file results `results`, in
      order; the first exception ends the run with nothing written. */
  function BatchOf(results: seq<Result<SolveRecord, SolveError>>, verbose: nat)
    : Result<seq<SolveRecord>, SolveError>
    decreases |results|
  {
    if results == [] then Success([])
    else Step(BatchOf(results[..|results| - 1], verbose), results[|results| - 1], verbose)
  }

  /** One turn of the loop: the result of a file, then the inclusion test. */
  function Step(acc: Result<seq<SolveRecord>, SolveError>, r: Result<SolveRecord, SolveError>, verbose: nat)
    : Result<seq<SolveRecord>, SolveError>
  {
    match acc
    case Failure(e) => Failure(e)
    case Success(kept) =>
      match r
      case Failure(e) => Failure(e)
      case Success(rec) =>
        match Keep(rec, verbose)
        case Failure(e) => Failure(e)
        case Success(k) => Success(kept + if k then [rec] else [])
  }

  /** The per-file results of the loop, in order. */
  function Results(files: seq<string>, inputs: seq<FileInput>, testFile: bool)
    : (rs: seq<Result<SolveRecord, SolveError>>)
    requires |inputs| == |files|
    ensures |rs| == |files|
  {
    seq(|files|, i requires 0 <= i < |files| => PerFile(files[i], inputs[i], testFile))
  }

  /** The per-file results with the `--test-file` record as intended. */
  function ResultsIntended(files: seq<string>, inputs: seq<FileInput>, testFile: bool)
    : (rs: seq<Result<SolveRecord, SolveError>>)
    requires |inputs| == |files|
    ensures |rs| == |files|
  {
    seq(|files|, i requires 0 <= i < |files| => PerFileIntended(files[i], inputs[i], testFile))
  }

  /** The body of the loop up to the inclusion test: the transcript's record
      with `--test-file`, otherwise that of `solve_image` with `guess_scale=True`. */
  method ProcessFile(f: string, input: FileInput, testFile: bool) returns (solveRes: Result<SolveRecord, SolveError>)
    ensures solveRes == PerFile(f, input, testFile)
  {
    if testFile {
      solveRes := TranscriptRecord(f, input.output);
    } else {
      var _, r := SolveImage(f, input.wd, MainOptions, input.elapsed, input.output, input.header);
      solveRes := r;
    }
  }

  /** The loop of `main`: one record per file, kept when solved or when the
      verbosity is at least 2. */
  method RunBatch(files: seq<string>, inputs: seq<FileInput>, verbose: nat, testFile: bool)
    returns (res: Result<seq<SolveRecord>, SolveError>)
    requires |inputs| == |files|
    ensures res == BatchOf(Results(files, inputs, testFile), verbose)
  {
    ghost var rs := Results(files, inputs, testFile);
    var kept: seq<SolveRecord> := [];
    var i := 0;
    while i < |files|
      invariant 0 <= i <= |files|
      invariant BatchOf(rs[..i], verbose) == Success(kept)
    {
      var solveRes := ProcessFile(files[i], inputs[i], testFile);
      assert solveRes == rs[i] by { assert rs[i] == PerFile(files[i], inputs[i], testFile); }
      var acc := Include(kept, solveRes, verbose);
      RunStep(rs, i, kept, verbose);
      if acc.Failure? {
        return acc;
      }
      kept := acc.value;
      i := i + 1;
    }
    assert rs[..i] == rs;
    res := Success(kept);
  }

  /** The inclusion test `solve_res["solved"] or args.verbose > 1` and the
      append it guards. */
  method Include(kept: seq<SolveRecord>, solveRes: Result<SolveRecord, SolveError>, verbose: nat)
    returns (acc: Result<seq<SolveRecord>, SolveError>)
    ensures acc == Step(Success(kept), solveRes, verbose)
  {
    if solveRes.Failure? {
      return Failure(solveRes.error);
    }
    var keep := Keep(solveRes.value, verbose);
    if keep.Failure? {
      return Failure(keep.error);
    }
    if keep.value {
      acc := Success(kept + [solveRes.value]);
    } else {
      assert kept + [] == kept;
      acc := Success(kept);
    }
  }

  /** One turn of the loop of `RunBatch`: the run so far is extended by one
      step, and a step that raises decides the whole run. */
  lemma RunStep(rs: seq<Result<SolveRecord, SolveError>>, i: nat, kept: seq<SolveRecord>, verbose: nat)
    requires i < |rs| && BatchOf(rs[..i], verbose) == Success(kept)
    ensures BatchOf(rs[..i + 1], verbose) == Step(Success(kept), rs[i], verbose)
    ensures Step(Success(kept), rs[i], verbose).Failure? ==>
              BatchOf(rs, verbose) == Step(Success(kept), rs[i], verbose)
  {
    BatchOfSnoc(rs, i, verbose);
    if BatchOf(rs[..i + 1], verbose).Failure? {
      BatchFailureSticks(rs, i + 1, verbose);
    }
  }

  lemma BatchOfSnoc(results: seq<Result<SolveRecord, SolveError>>, i: nat, verbose: nat)
    requires i < |results|
    ensures BatchOf(results[..i + 1], verbose) == Step(BatchOf(results[..i], verbose), results[i], verbose)
  {
    assert results[..i + 1][..i] == results[..i];
  }

  /** Once a prefix of the files has raised, the whole run has, with the same
      exception. */
  lemma {:induction false} BatchFailureSticks(results: seq<Result<SolveRecord, SolveError>>, n: nat, verbose: nat)
    requires n <= |results| && BatchOf(results[..n], verbose).Failure?
    ensures BatchOf(results, verbose) == BatchOf(results[..n], verbose)
    decreases |results|
  {
    if n < |results| {
      var init := results[..|results| - 1];
      assert init[..n] == results[..n];
      BatchFailureSticks(init, n, verbose);
    } else {
      assert results[..n] == results;
    }
  }

  /** The records of those files whose result is kept, in input order. */
  function Selected(recs: seq<SolveRecord>, verbose: nat): seq<SolveRecord>
  {
    if recs == [] then []
    else Selected(recs[..|recs| - 1], verbose)
         + if recs[|recs| - 1].solved == Some(true) || verbose > 1 then [recs[|recs| - 1]] else []
  }

  /** A file whose result lets the loop go on: no exception, and a verdict
      to test. */
  predicate Good(r: Result<SolveRecord, SolveError>)
  {
    r.Success? && r.value.solved.Some?
  }

  /** The exception a file that is not `Good` raises. */
  function ErrorOf(r: Result<SolveRecord, SolveError>): SolveError
  {
    if r.Failure? then r.error else MissingSolvedKey
  }

  ghost predicate AllSucceed(results: seq<Result<SolveRecord, SolveError>>)
  {
    forall i :: 0 <= i < |results| ==> Good(results[i])
  }

  /** The position of the first file that is not `Good`, or the number of files. */
  function FirstBad(results: seq<Result<SolveRecord, SolveError>>): (k: nat)
    ensures k <= |results|
    ensures forall j :: 0 <= j < k ==> Good(results[j])
    ensures k < |results| ==> !Good(results[k])
    decreases |results|
  {
    if results == [] then 0
    else
      var n := |results| - 1;
      var k := FirstBad(results[..n]);
      assert forall j :: 0 <= j < n ==> results[..n][j] == results[j];
      if k < n || !Good(results[n]) then k else |results|
  }

  function Values(results: seq<Result<SolveRecord, SolveError>>): (recs: seq<SolveRecord>)
    requires forall i :: 0 <= i < |results| ==> results[i].Success?
    ensures |recs| == |results| && forall i :: 0 <= i < |results| ==> recs[i] == results[i].value
  {
    seq(|results|, i requires 0 <= i < |results| => results[i].value)
  }

  /** The run raises the exception of the first file that is not `Good`; when
      there is none it yields the selected records in input order. */
  lemma {:induction false} BatchOutcome(results: seq<Result<SolveRecord, SolveError>>, verbose: nat)
    ensures var k := FirstBad(results);
            BatchOf(results, verbose)
            == if k < |results| then Failure(ErrorOf(results[k]))
               else Success(Selected(Values(results), verbose))
    decreases |results|
  {
    if results != [] {
      var n := |results| - 1;
      var init := results[..n];
      BatchOutcome(init, verbose);
      if FirstBad(init) == n && Good(results[n]) {
        assert Values(results)[..n] == Values(init);
      }
    }
  }

  /** The batch succeeds exactly when every file is `Good`. */
  lemma BatchSucceeds(results: seq<Result<SolveRecord, SolveError>>, verbose: nat)
    ensures BatchOf(results, verbose).Success? <==> AllSucceed(results)
    ensures AllSucceed(results) ==> BatchOf(results, verbose).value == Selected(Values(results), verbose)
  {
    BatchOutcome(results, verbose);
  }

  /** Selection keeps order: the records selected from two runs of files are
      those of the first run followed by those of the second. */
  lemma {:induction false} SelectedAppend(a: seq<SolveRecord>, b: seq<SolveRecord>, verbose: nat)
    ensures Selected(a + b, verbose) == Selected(a, verbose) + Selected(b, verbose)
    decreases |b|
  {
    if b != [] {
      var n := |b| - 1;
      assert (a + b)[..|a + b| - 1] == a + b[..n];
      SelectedAppend(a, b[..n], verbose);
    } else {
      assert a + b == a;
    }
  }

  /** A record is selected exactly when it is solved or the verbosity is at
      least 2; with verbosity 2 or more every record is kept. */
  lemma {:induction false} SelectedMembers(recs: seq<SolveRecord>, verbose: nat)
    ensures forall r :: r in Selected(recs, verbose) <==> r in recs && (r.solved == Some(true) || verbose > 1)
    ensures verbose > 1 ==> Selected(recs, verbose) == recs
    decreases |recs|
  {
    if recs != [] {
      var n := |recs| - 1;
      SelectedMembers(recs[..n], verbose);
      assert recs == recs[..n] + [recs[n]];
    }
  }

  /** Without `--test-file` the correction changes nothing: every record
      comes from `solve_image`. */
  lemma SolverModeUnaffected(files: seq<string>, inputs: seq<FileInput>)
    requires |inputs| == |files|
    ensures ResultsIntended(files, inputs, false) == Results(files, inputs, false)
  {
    var a, b := ResultsIntended(files, inputs, false), Results(files, inputs, false);
    forall i | 0 <= i < |files| ensures a[i] == b[i] {
      assert a[i] == PerFileIntended(files[i], inputs[i], false);
      assert b[i] == PerFile(files[i], inputs[i], false);
    }
  }

  /** As written, `--test-file` can never produce output: the first file
      either fails to parse, and its parse error escapes, or yields a record
      without `solved`, and the lookup of that key raises `KeyError`. */
  lemma TestFileAlwaysFailsAsWritten(files: seq<string>, inputs: seq<FileInput>, verbose: nat)
    requires |inputs| == |files| && files != []
    ensures var p := ParseBuf(inputs[0].output);
            BatchOf(Results(files, inputs, true), verbose)
            == Failure(if p.Failure? then ReportError(p.error) else MissingSolvedKey)
  {
    var rs := Results(files, inputs, true);
    BatchOutcome(rs, verbose);
    assert rs[0] == TranscriptRecord(files[0], inputs[0].output);
    assert !Good(rs[0]);
    assert FirstBad(rs) == 0;
  }

  /** As intended, `--test-file` writes the reports of all the transcripts,
      in order, as soon as every one of them parses. */
  lemma TestFileBatch(files: seq<string>, inputs: seq<FileInput>, verbose: nat)
    requires |inputs| == |files|
    ensures var b := BatchOf(ResultsIntended(files, inputs, true), verbose);
            && (b.Success? <==> forall i :: 0 <= i < |files| ==> ParseBuf(inputs[i].output).Success?)
            && (b.Success? ==>
                  && |b.value| == |files|
                  && forall i :: 0 <= i < |files| ==>
                       b.value[i].file == files[i] && b.value[i].report == Some(ParseBuf(inputs[i].output).value))
  {
    var rs := ResultsIntended(files, inputs, true);
    forall i | 0 <= i < |files|
      ensures Good(rs[i]) <==> ParseBuf(inputs[i].output).Success?
      ensures Good(rs[i]) ==> rs[i].value.solved == Some(true) && rs[i].value.file == files[i]
                              && rs[i].value.report == Some(ParseBuf(inputs[i].output).value)
    {
      assert rs[i] == TranscriptRecordIntended(files[i], inputs[i].output);
    }
    BatchSucceeds(rs, verbose);
    if AllSucceed(rs) {
      SelectedAllSolved(Values(rs), verbose);
    }
  }

  /** In solver mode every record carries a verdict, so the run fails only
      through an exception of `solve_image`, and otherwise writes the solved
      records (all of them from verbosity 2 on) in input order. */
  lemma SolverBatch(files: seq<string>, inputs: seq<FileInput>, verbose: nat)
    requires |inputs| == |files|
    ensures var rs := Results(files, inputs, false);
            var b := BatchOf(rs, verbose);
            && (b.Success? <==> forall i :: 0 <= i < |files| ==> rs[i].Success?)
            && (b.Failure? ==> b.error != MissingSolvedKey)
            && (b.Success? ==> b.value == Selected(Values(rs), verbose))
  {
    var rs := Results(files, inputs, false);
    forall i | 0 <= i < |files|
      ensures rs[i].Success? ==> rs[i].value.solved.Some?
      ensures rs[i].Failure? ==> rs[i].error != MissingSolvedKey
    {
      var f, x := files[i], inputs[i];
      assert rs[i] == SolveOutcome(f, x.elapsed, x.output, x.header);
      SolveVerdict(f, x.elapsed, x.output, x.header);
      HdrErrorKind(x.header);
    }
    BatchOutcome(rs, verbose);
  }

  lemma HdrErrorKind(h: Header)
    ensures HdrOf(h).Failure? ==> HdrOf(h).error == HeaderTypeError
  {
  }

  lemma {:induction false} SelectedAllSolved(recs: seq<SolveRecord>, verbose: nat)
    requires forall i :: 0 <= i < |recs| ==> recs[i].solved == Some(true)
    ensures Selected(recs, verbose) == recs
    decreases |recs|
  {
    if recs != [] {
      SelectedAllSolved(recs[..|recs| - 1], verbose);
      assert recs == recs[..|recs| - 1] + [recs[|recs| - 1]];
    }
  }
}
