# astro-tools: a Dafny model of the header and report processing

This project models the parts of four small astronomy command-line tools that
turn text and FITS header values into records:

- `astroprobe.py` runs the astrometry.net plate solver on each image. The model
  covers the solver command line `solve_image` builds, `parse_buf` (the parser
  for the solver's free-text report), the record `solve_image` assembles, and
  the loop of `main` that decides which records are written out.
- `fitspatch.py` patches FITS headers. The model covers `split_kvpairs`, which
  accepts `KEY=value` arguments (also `KEY:value`, `KEY/value`).
- `fitsfilter.py` sorts FITS files into directories. The model covers the
  per-file record: the chosen header columns, the telescope name looked up
  from aperture and focal length, the derived pairs `SITE`, `RADEC`,
  `OBJRADEC`, `PIXSIZE` and `IMGSIZE`, the folding of nonstandard exposure
  keys into `EXPTIME`, and `BINNING`. It also covers the output directory
  formatted from that record and the loop over the files with its moves.
- `fitsprobe.py` prints FITS headers. The model covers the per-file loop,
  which cuts each header down to the requested columns and collects the
  averaged column.

Python dicts are insertion-ordered sequences of key/value pairs
(`PyDict.Dict`), with `Get`, `Set`, `Del` and `Update` behaving as Python's
`d[k]`, `d[k] = v`, `del d[k]` and `d.update(o)`. FITS header values are
`HeaderValues.HeaderValue`: string, integer, real, boolean, `None`, or a pair
(a 2-tuple). Python's truthiness and `==` between them are modelled as well.

Exceptions that end a script are results: `Result.Failure` carries the
exception (`KeyError`, `AttributeError`, `TypeError`, `ValueError`, or the
parse errors of `parse_buf`). Code that updates variables in a loop is
modelled as a Dafny `method` with a `while` loop. Each such method is proved
equal to a specification function, and the properties are proved about that
function.

The loops are modelled as the code is written, including the three defects
listed under "Findings". The corrected behaviour is a separate set of
functions whose names end in `Intended`. Lemmas state where the two differ:
for `PIXSIZE`, the two records differ in that key only.

`parse_buf` raises when a mandatory line is missing or is not a number. That
exception escapes `solve_image` and ends `main`, so an output whose report
does not parse is never recorded as unsolved (`PlateSolve.SolveVerdict`).

## Model

| member | source | states |
|---|---|---|
| SolverArgs.BuildSolverArgs | astroprobe.py:87-98 | The argument vector is the fixed prefix `solve-field --dir wd --temp-dir wd`, then each option's tokens in keyword order, then the image; its length is 6 plus one token per option plus one per option that is not `True` |
| SolverArgs.Prefix | astroprobe.py:88 | The five tokens before the options name the solver and give the working directory as output and as temporary directory |
| SolverArgs.FlagNameShape | astroprobe.py:91-92 | A flag is one dash for a one-character name and two otherwise, then the name with `_` turned into `-`; no flag contains `_` |
| SolverArgs.FlagNameOfWords | astroprobe.py:91-92 | A keyword of two words joined by `_` becomes `--` and the words joined by `-` |
| SolverArgs.OptionTokensLength | astroprobe.py:90-96 | Each option gives one token, plus a value token when it is not `True` |
| SolverArgs.OptionTokensAt | astroprobe.py:90-96 | Option `j` sits at its offset: its flag, then `str(v)` unless `v is True`; options keep keyword order with nothing interleaved |
| SolverArgs.OptionTokensAppend | astroprobe.py:90-96 | Adding an option appends exactly its tokens |
| SolverArgs.GuessScaleFlag | astroprobe.py:91-92 | `guess_scale` becomes `--guess-scale` |
| SolverArgs.OneTrueOption | astroprobe.py:87-98 | A single option set to `True` adds only its flag, between the working directories and the image |
| SolverArgs.MainSolverArgv | astroprobe.py:167 | `main`'s solver call gives `solve-field --dir wd --temp-dir wd --guess-scale img` |
| ReportParser.Search | astroprobe.py:52-55 | `re.search` gives no match iff no position matches, and otherwise the match at the leftmost position that matches |
| ReportParser.SpanExact | astroprobe.py:52-55 | A greedy `[class]+` captures exactly a run of class characters that is followed by a non-member |
| ReportParser.FieldSizeRoundTrip | astroprobe.py:52 | A `Field size: W x H` line gives back `W` and `H`, whatever non-number text follows |
| ReportParser.FieldCenterRoundTrip | astroprobe.py:53 | A `Field center: (RA,Dec) = (ra, dec) deg.` line gives back `ra` and `dec` |
| ReportParser.DecAndTailRoundTrip | astroprobe.py:53 | The declination group followed by `) deg.` gives back the declination |
| ReportParser.PixelScaleRoundTrip | astroprobe.py:55 | A `pixel scale N arcsec/pix` line gives back `N` |
| ReportParser.LongestGroup | astroprobe.py:61 | The greedy index-name group gives back characters only until the rest of the pattern matches; it is the longest such prefix |
| ReportParser.IndexName | astroprobe.py:61 | A captured index name is non-empty and made of `[a-z0-9-]` |
| ReportParser.NonSpaceThenEndianRun | astroprobe.py:61 | `\S+endian.fits.` matches non-space characters followed by `endian.fits.` |
| ReportParser.EndianFitsLine | astroprobe.py:61 | `endian.fits.` matches its own text |
| ReportParser.IndexRoundTrip | astroprobe.py:61 | A `Field d: solved with index index-NAME.Xendian.fits.` line yields `NAME` |
| ReportParser.IndexNameRoundTrip | astroprobe.py:61 | Once the `.` after the name ends the greedy group, the group is the whole name |
| ReportParser.LineMatch | astroprobe.py:56-59 | A rule's capture is the non-empty rest of the line after its lead, and holds no line feed |
| ReportParser.LeadSplit | astroprobe.py:56-59 | A rule's lead is decided within the first line |
| ReportParser.LineMatchSplit | astroprobe.py:56-59 | A match never reaches across a line feed |
| ReportParser.MatcherProperties | astroprobe.py:56-59 | The four find-all rules consume at least their lead, stay within a line, and run to the end of the line |
| ReportParser.Skip | astroprobe.py:56-59 | The `findall` scan always moves forward, and never past the end |
| ReportParser.ScanSplit | astroprobe.py:56-59 | The matches in text joined by a line feed are those of each part, in order |
| ReportParser.ScanLine | astroprobe.py:56-59 | A line without line feed gives at most one capture, that of its leftmost match |
| ReportParser.Lines | astroprobe.py:56-59 | `split("\n")` pieces contain no line feed |
| ReportParser.ScanByLines | astroprobe.py:56-59 | The scan is the per-line leftmost captures of the lines, in order |
| ReportParser.FindAllByLines | astroprobe.py:56-59 | `re.findall` on the four rules yields, line by line in text order, the capture of each line that matches |
| ReportParser.FindAllSplit | astroprobe.py:56-59 | `findall` on two parts joined by a line feed is the concatenation of the two results |
| ReportParser.ParseFloatNat | astroprobe.py:52-55 | `float` of a whole number's digits gives that number |
| ReportParser.ParseUnsignedDecimal | astroprobe.py:52-55 | `ip.fp` converts to the decimal value it spells |
| ReportParser.ParseFloatDecimal | astroprobe.py:52-55 | `ip.fp` and `-ip.fp` convert to the decimal value they spell and its negation |
| ReportParser.ParseFloatSecondPoint | astroprobe.py:52-55 | A second decimal point makes `float` raise `ValueError` |
| ReportParser.SourcesRoundTrip | astroprobe.py:117-140 | `simplexy: found N sources` gives back `N` through `int` |
| ReportParser.Floats | astroprobe.py:52-54 | A pair of captures converts iff both are numbers; otherwise the error names the first bad text |
| ReportParser.ParseBuf | astroprobe.py:50-64 | On success the three mandatory patterns have all matched, and `index` is the first index match; a `ValueError` names a capture that is not a number |
| ReportParser.Assemble | astroprobe.py:50-64 | `parse_buf` fails with the field-size error iff that pattern is missing; it succeeds iff the three mandatory patterns match and convert; on success every key holds what its pattern captured |
| ReportParser.ParseBufMissing | astroprobe.py:52-63 | The missing-field-size error happens iff no position starts the pattern; `index` is absent iff no position starts the index pattern |
| PlateSolve.FovPart | astroprobe.py:132-133 | A field-of-view component exists iff both header values are numbers |
| PlateSolve.HdrOf | astroprobe.py:124-137 | The `hdr` entry raises only `TypeError`, and is present only when the six keys are |
| PlateSolve.HdrAllOrNothing | astroprobe.py:124-137 | `hdr` is present iff the six keys are, and then holds `DEC`, `RA` and `OBJECT` (default `""`); a `TypeError` needs `DEC`, `RA`, `NAXIS1` and `SECPIX1` present and a size operand that is not a number |
| PlateSolve.HdrOfNumbers | astroprobe.py:131-134 | With numeric sizes and scales, `hdr.fov` is `NAXIS * SECPIX / 3600` on each axis |
| PlateSolve.HdrErrorKind | astroprobe.py:124-137 | The only exception the `hdr` entry lets escape is `TypeError` |
| PlateSolve.SolveOutcome | astroprobe.py:67-147 | `solve_image` raises only the `hdr` `TypeError` or a `parse_buf` error; its record names the image, and `solved` is true iff the output lacks `Did not solve` |
| PlateSolve.SolveImage | astroprobe.py:87-147 | `solve_image` passes the solver the argument vector above and returns the record the solver's output and the header determine |
| PlateSolve.SolveVerdict | astroprobe.py:117-147 | It fails iff `hdr` raises, or the output is solved and `parse_buf` raises; `solved` is true iff the output lacks `Did not solve`, and only then are the report keys present; `file`, `solve_time`, `hdr` and `sources` are set as the inputs dictate |
| PlateSolve.SolveSources | astroprobe.py:117-140 | `sources` is absent iff no position of the output starts the pattern, and otherwise is the first count |
| PlateSolve.TranscriptRecord | astroprobe.py:161-165 | A `--test-file` record, as written, exists iff the transcript parses, and then has the file but never the `solved` key |
| PlateSolve.TranscriptRecordIntended | astroprobe.py:161-165 | The corrected `--test-file` record exists iff the transcript parses, and is then marked solved with that file and report |
| PlateSolve.Keep | astroprobe.py:172 | The inclusion test raises iff the record lacks `solved`, and otherwise keeps a solved record, or any record at verbosity 2 or more |
| PlateSolve.Results | astroprobe.py:159-167 | One per-file result per input file, as written |
| PlateSolve.ResultsIntended | astroprobe.py:159-167 | One per-file result per input file, with the corrected `--test-file` record |
| PlateSolve.SolverModeUnaffected | astroprobe.py:159-167 | Without `--test-file`, the corrected results are those of the code as written |
| PlateSolve.ProcessFile | astroprobe.py:160-167 | The loop body, as written: the transcript's record with `--test-file`, otherwise that of `solve_image` with `guess_scale=True` |
| PlateSolve.RunBatch | astroprobe.py:157-173 | The loop, as written, computes the batch outcome of the per-file results |
| PlateSolve.BatchOfSnoc | astroprobe.py:159-173 | One more file is one more loop step |
| PlateSolve.BatchFailureSticks | astroprobe.py:159-173 | After an exception, later files change nothing |
| PlateSolve.FirstBad | astroprobe.py:159-173 | The first file that raises is well defined: every earlier file goes on |
| PlateSolve.Values | astroprobe.py:159-173 | The records of a run without exception, one per file |
| PlateSolve.BatchOutcome | astroprobe.py:159-173 | The run raises the exception of the first failing file, and otherwise yields the selected records in input order |
| PlateSolve.BatchSucceeds | astroprobe.py:159-176 | The output is written iff no file raises, and then it is the selected records |
| PlateSolve.SelectedAppend | astroprobe.py:172-173 | Selection keeps input order across runs of files |
| PlateSolve.SelectedMembers | astroprobe.py:172-173 | A record is written iff it is solved or verbosity is at least 2; from verbosity 2 on every record is written |
| PlateSolve.SelectedAllSolved | astroprobe.py:172-173 | When every record is solved, every record is written |
| PlateSolve.TestFileAlwaysFailsAsWritten | astroprobe.py:161-172 | As written, a `--test-file` run over at least one file always raises: the first transcript's parse error, or `KeyError` on `solved` |
| PlateSolve.TestFileBatch | astroprobe.py:161-173 | As corrected, a `--test-file` run writes every transcript's report, in order, iff all of them parse |
| PlateSolve.SolverBatch | astroprobe.py:159-173 | In solver mode the run never fails on a missing `solved`; it fails iff some `solve_image` raises, and otherwise writes the selected records |
| KvPairs.TrimEnd | fitspatch.py:128 | Removing trailing whitespace gives a prefix followed only by whitespace, ending in a non-space |
| KvPairs.Accept | fitspatch.py:129 | An argument longer than 81 characters is never accepted |
| KvPairs.ValueOf | fitspatch.py:128 | A captured value is non-empty, has no line feed, ends in a non-space unless it is one character, and only whitespace follows it; text that starts with a non-space and has no line feed always gives one |
| KvPairs.ValueOfComplete | fitspatch.py:128 | Every such value followed by whitespace is captured as itself |
| KvPairs.MatchKv | fitspatch.py:128 | A match has a name of at most eight `[0-9A-Z_-]` followed by a separator, and a value the value group can capture |
| KvPairs.MatchKvSound | fitspatch.py:128 | An accepted argument is its name of at most eight `[0-9A-Z_-]`, a separator, its value and trailing whitespace |
| KvPairs.MatchKvComplete | fitspatch.py:128 | Every such spelling is accepted with that name and value |
| KvPairs.SpanAllNames | fitspatch.py:128 | A run of name characters is taken whole by the name group |
| KvPairs.SpanAtLeast | fitspatch.py:128 | The name group takes at least the leading name characters |
| KvPairs.TrimEndSpaces | fitspatch.py:128 | Trailing whitespace does not change the captured value |
| KvPairs.SeparatorInValue | fitspatch.py:128 | `A=b=c` gives name `A` and value `b=c` |
| KvPairs.EmptyName | fitspatch.py:128 | `=X` is accepted with an empty name |
| KvPairs.BlankValueKeepsOne | fitspatch.py:128 | A value of spaces only gives its first space |
| KvPairs.RejectsLowerCase | fitspatch.py:128 | A lower-case name is rejected |
| KvPairs.RejectsLongName | fitspatch.py:128 | A nine-character name is rejected |
| KvPairs.RejectsMissingParts | fitspatch.py:128 | No separator, or nothing after it, is rejected |
| KvPairs.SplitKvPairs | fitspatch.py:124-131 | The loop returns the groups of the accepted arguments, in order |
| KvPairs.AcceptedAppend | fitspatch.py:126-131 | The output for two runs of arguments is the first run's followed by the second's |
| KvPairs.AcceptedMembers | fitspatch.py:126-131 | An entry is in the output iff some argument is accepted with it; the output is no longer than the input |
| KvPairs.AcceptedWitness | fitspatch.py:126-131 | Every entry of the output is the groups of some argument that was accepted |
| KvPairs.AcceptedComplete | fitspatch.py:126-131 | The output is what the arguments before one give, then what that argument alone gives, then what the arguments after it give |
| KvPairs.AcceptedOne | fitspatch.py:126-131 | An accepted argument on its own gives exactly its groups |
| Text.Replace | fitsfilter.py:172 | `str.replace` of one character: same length, the character replaced at every position and nothing else |
| Text.ReplaceRemoves | fitsfilter.py:172 | After replacing a character with another, it no longer occurs |
| FitsFilter.SrcPassGet | fitsfilter.py:154-157 | The copy of the chosen columns leaves keys it does not copy as they were |
| FitsFilter.SrcPassKeys | fitsfilter.py:154-157 | The copy keeps earlier keys in place and never repeats a key |
| FitsFilter.SeededKeys | fitsfilter.py:153-159 | The record starts with `FILENAME` and never repeats a key |
| FitsFilter.SeededGet | fitsfilter.py:153-159 | The record holds exactly what `{"FILENAME": filename}` updated with the header holds; the copy of the chosen columns only sets key order |
| FitsFilter.SeedRecord | fitsfilter.py:153-159 | The seeding loop computes that record |
| FitsFilter.RoundHalfEven | fitsfilter.py:161 | The integer `.0f` rounds to: the nearest integer, ties to even |
| FitsFilter.ZeroDecimals | fitsfilter.py:161 | `format(x, ".0f")` starts with `-` iff `x` is negative: a value in [-0.5, 0) shows as `-0`, and any other value as its rounded integer |
| FitsFilter.RoundWhole | fitsfilter.py:161 | A whole number shows as itself |
| FitsFilter.ScopeKey | fitsfilter.py:161 | The key raises only `TypeError` or `ValueError`, never when both values convert to float, is two numbers around a `:`, and starts with `-` iff the aperture is negative |
| FitsFilter.ScopeKeyNegativeZero | fitsfilter.py:161 | An aperture of -0.4 with focal length 60 gives the key `"-0:60"` |
| FitsFilter.NegativeApertureUnknown | fitsfilter.py:161-163 | A negative aperture, `-0` included, names no telescope of the table: `SCOPE` is `"unknown"` |
| FitsFilter.ScopeName | fitsfilter.py:163 | The name is `unknown` iff the key is not in the table, and is otherwise the table's entry for the key |
| FitsFilter.ScopeKeyOfWholeNumbers | fitsfilter.py:161 | Whole aperture and focal length (missing ones count as 0) give the key `"a:f"` |
| FitsFilter.AskarEightyExtended | fitsfilter.py:161-163 | 80 mm at 600 mm is named `a5_80x` |
| FitsFilter.ScopeWithoutAperture | fitsfilter.py:161-163 | A header without aperture is named `unknown` |
| FitsFilter.WithSite | fitsfilter.py:165-168 | `SITE` is the pair of latitude and longitude when both exist; otherwise nothing changes; no other key changes |
| FitsFilter.WithPair | fitsfilter.py:170 | The step `d[key] = (d[k1], d[k2])`, which builds `RADEC` from `RA` and `DEC` here and `IMGSIZE` from `NAXIS1` and `NAXIS2` at line 194: it raises iff `k1` or `k2` is missing, with the `KeyError` of `k1` when both are, and otherwise sets `key` to their pair and changes no other key |
| FitsFilter.WithObjRaDec | fitsfilter.py:171-174 | It raises iff a present object coordinate that is read is not a string; with both present it sets their pair with spaces turned into colons; a missing one changes nothing |
| FitsFilter.WithPixSize | fitsfilter.py:176-182 | The `PIXSIZE` step as written: a missing size changes nothing, and no key other than `PIXSIZE` changes |
| FitsFilter.WithPixSizeIntended | fitsfilter.py:176-182 | The corrected `PIXSIZE` step: a missing size changes nothing, and no key other than `PIXSIZE` changes |
| FitsFilter.PixSizeAsWrittenLosesHeight | fitsfilter.py:176-182 | As written, unequal sizes give the pair of the horizontal size twice, never the pair of both |
| FitsFilter.PixSizeAsWrittenExample | fitsfilter.py:176-182 | As written, 3.76 by 2.9 gives `(3.76, 3.76)` |
| FitsFilter.PixSizeIntended | fitsfilter.py:176-182 | As corrected, `PIXSIZE` is the shared size when equal and the pair of both otherwise |
| FitsFilter.FoldOne | fitsfilter.py:186-188 | One exposure step keeps keys unique and `FILENAME` first |
| FitsFilter.FoldOneGet | fitsfilter.py:186-188 | A truthy key moves its value to `EXPTIME` and is deleted; a falsy one changes nothing |
| FitsFilter.FoldExposure | fitsfilter.py:185-188 | The exposure loop keeps keys unique and `FILENAME` first |
| FitsFilter.LastTruthyFrame | fitsfilter.py:185-188 | The last truthy value depends only on the folded keys |
| FitsFilter.FoldExposureGet | fitsfilter.py:185-188 | `EXPTIME` ends as the last truthy value of the folded keys, or keeps its own; truthy keys are deleted, falsy ones kept, nothing else changes |
| FitsFilter.FoldExposureTime | fitsfilter.py:185-188 | `EXPTIME` ends as the value of the last folded key that is truthy, or keeps its own when none is |
| FitsFilter.FoldExposureKey | fitsfilter.py:185-188 | A folded key is gone when its value was truthy and unchanged otherwise; every other key except `EXPTIME` is unchanged |
| FitsFilter.ExposureKeysDistinct | fitsfilter.py:185 | The folded keys are distinct and do not include `EXPTIME` |
| FitsFilter.FoldExposureKeys | fitsfilter.py:185-188 | The loop computes that fold |
| FitsFilter.WithBinning | fitsfilter.py:190-193 | It raises iff `BINNING` is absent or `None` and an axis binning is missing, or `BINNING` is set but not a string; on success `BINNING` is a string and nothing else changes |
| FitsFilter.BinningFromAxes | fitsfilter.py:191 | A missing `BINNING` becomes `"<XBINNING>x<YBINNING>"` and raises iff either is missing |
| FitsFilter.BinningStarred | fitsfilter.py:193 | A string binning has every `*` replaced by `x` and nothing else |
| FitsFilter.BinningTwoByTwo | fitsfilter.py:191 | Axis binnings 2 and 2 give `"2x2"` |
| FitsFilter.Scoped | fitsfilter.py:153-168 | The steps up to `SITE` keep keys unique and `FILENAME` first, and always set `SCOPE` |
| FitsFilter.Pointing | fitsfilter.py:170-174 | `RADEC` and `OBJRADEC` keep keys unique and `FILENAME` first |
| FitsFilter.Exposure | fitsfilter.py:185-194 | The steps from `EXPTIME` to `IMGSIZE` keep keys unique and `FILENAME` first |
| FitsFilter.Finish | fitsfilter.py:170-194 | The steps from `RADEC` to `IMGSIZE`, as written, keep keys unique and `FILENAME` first |
| FitsFilter.FinishIntended | fitsfilter.py:170-194 | The same steps with the corrected `PIXSIZE` keep keys unique and `FILENAME` first |
| FitsFilter.Derived | fitsfilter.py:153-194 | A record finished as written never repeats a key and starts with `FILENAME` |
| FitsFilter.DerivedIntended | fitsfilter.py:153-194 | A record finished with the corrected `PIXSIZE` never repeats a key and starts with `FILENAME` |
| FitsFilter.FoldSameButPixSize | fitsfilter.py:185-188 | The exposure loop keeps two records that differ only in `PIXSIZE` differing only there |
| FitsFilter.FoldKeepsPixSize | fitsfilter.py:185-188 | The exposure loop leaves `PIXSIZE`, `PIXSIZE1` and `PIXSIZE2` as they were |
| FitsFilter.ExposureKeepsPixSize | fitsfilter.py:185-194 | The steps from `EXPTIME` to `IMGSIZE` leave `PIXSIZE`, `PIXSIZE1` and `PIXSIZE2` as they were |
| FitsFilter.ExposureSameButPixSize | fitsfilter.py:185-194 | Those steps never read `PIXSIZE`: records that differ only there fail together and stay so |
| FitsFilter.BinningSameButPixSize | fitsfilter.py:190-193 | `BINNING` never reads `PIXSIZE` |
| FitsFilter.ImgSizeSameButPixSize | fitsfilter.py:194 | `IMGSIZE` never reads `PIXSIZE` |
| FitsFilter.FinishSameButPixSize | fitsfilter.py:170-194 | From `RADEC` on, the record as written and the corrected one fail together and differ only in `PIXSIZE` |
| FitsFilter.FinishPixSizeValues | fitsfilter.py:176-182 | There, for unequal sizes, the record as written holds the horizontal size twice and the corrected one holds both sizes; for equal ones both hold the size |
| FitsFilter.DerivedPixSize | fitsfilter.py:153-194 | The finished record as written and the corrected one fail together and differ only in `PIXSIZE` |
| FitsFilter.DeriveRecord | fitsfilter.py:150-194 | The loop body, as written, computes the record or the first exception |
| FitsFilter.Format | fitsfilter.py:203 | Formatting raises only the `KeyError` of a field of the template whose key the record lacks, and succeeds when the record has every field's key |
| FitsFilter.FormatFails | fitsfilter.py:203 | Formatting raises iff a field names a missing key |
| FitsFilter.FormatFirstMissing | fitsfilter.py:203 | The exception is the `KeyError` of the first field whose key is missing |
| FitsFilter.FormatDefault | fitsfilter.py:203 | The default format gives `<SCOPE>/<OBJECT>_<FILTER>` |
| FitsFilter.OutputDir | fitsfilter.py:203 | The directory fails iff formatting does; otherwise it is the formatted text with every space turned into `_` and every other character kept, so it has no space |
| FitsFilter.Join | fitsfilter.py:152-213 | `os.path.join` ends with the joined name |
| FitsFilter.JoinRelative | fitsfilter.py:152-213 | A relative name joined to a directory starts with the directory and follows a `/` |
| FitsFilter.MoveOf | fitsfilter.py:211-213 | The move as written: the bare file name is renamed into the output directory under its own name |
| FitsFilter.MoveOfIntended | fitsfilter.py:152-213 | The corrected move: the file that was read is renamed into the output directory under its own name |
| FitsFilter.MoveAsWrittenMissesSource | fitsfilter.py:152-213 | As written, for a source directory other than the current one (not empty, `.` or `./`) and a relative file name, the path renamed is the bare file name and differs from the path the header was read from; the default `.` is unaffected |
| FitsFilter.MoveAsWrittenExample | fitsfilter.py:152-213 | With source directory `raw`, the header comes from `raw/m31.fits` but the file renamed is `m31.fits` |
| FitsFilter.MoveIntended | fitsfilter.py:152-213 | As corrected, the file moved is the file read, and it lands inside the output directory under its own name |
| FitsFilter.FileResult | fitsfilter.py:150-213 | One file, as written: a record with `FILENAME` first and a move from the bare file name |
| FitsFilter.FileResultIntended | fitsfilter.py:150-213 | One file, corrected: a record with `FILENAME` first and a move from the file that was read |
| FitsFilter.Results | fitsfilter.py:150-213 | One outcome per file, as written |
| FitsFilter.ResultsIntended | fitsfilter.py:150-213 | One corrected outcome per file |
| FitsFilter.ProcessFile | fitsfilter.py:151-213 | The loop body, as written, gives the record and its move, or the first exception |
| FitsFilter.FilterFiles | fitsfilter.py:150-214 | The loop, as written, computes the run of the per-file outcomes |
| FitsFilter.FilterOfSnoc | fitsfilter.py:150-214 | One more file is one more loop step |
| FitsFilter.FilterFailureSticks | fitsfilter.py:150-214 | After an exception, later files change nothing |
| FitsFilter.FilterOutcome | fitsfilter.py:150-214 | The run collects records up to the first failing file, in order, and stops with its exception |
| FitsFilter.FilterMoves | fitsfilter.py:205-213 | The run moves exactly the collected files, in order, and only under `--move` |
| FitsProbe.Kept | fitsprobe.py:38-41 | What the deletion loop keeps is no longer than the header and holds only listed keys |
| FitsProbe.Projected | fitsprobe.py:37-41 | An empty list keeps the header whole; otherwise only listed keys remain |
| FitsProbe.ProbeRecord | fitsprobe.py:36-43 | A file's record starts with `FILENAME` |
| FitsProbe.KeptKeys | fitsprobe.py:38-41 | A key survives iff it is in the header and listed |
| FitsProbe.KeptGet | fitsprobe.py:38-41 | Listed keys keep their values, unlisted keys are gone, no key repeats |
| FitsProbe.DeleteOtherColumns | fitsprobe.py:39-41 | The deletion loop over the key snapshot leaves exactly the listed entries, in header order |
| FitsProbe.ProbeFile | fitsprobe.py:36-43 | One file's record is `FILENAME` followed by the projected header |
| FitsProbe.ProbeRecordGet | fitsprobe.py:36-43 | A record starts with `FILENAME` and has no repeated key; each key holds the header's value if listed (all keys for an empty list), and `FILENAME` is the file name unless the header's own wins |
| FitsProbe.ProjectedGet | fitsprobe.py:38-41 | After the deletion loop a key keeps its value when it is listed (every key for an empty list) and is absent otherwise; no key repeats |
| FitsProbe.ProbeRecordShape | fitsprobe.py:37-43 | Merging the header into the dict that holds the file name keeps `FILENAME` first and repeats no key |
| FitsProbe.AccumulatedValue | fitsprobe.py:45 | The accumulated value is the header's value of the averaged column, NaN if the header lacks it or the list leaves it out |
| FitsProbe.ProbeFiles | fitsprobe.py:31-45 | `--summary` selects the eight summary columns; one record and one accumulator entry per file, in order |

## Left out

- Reading FITS headers, files and transcripts; `glob`; argument parsing; `print`, `rprint` and logging; the JSON output; the execution of `os.makedirs` and `os.rename`. The headers and texts are inputs, and the moves are values.
- The solver run itself, `mkdtemp`, the clock, `--save-temps` and `rm_rf` in `solve_image`. The solver's output and the elapsed time are parameters.
- PlateSolve.SolveImage: `solve_time` is the elapsed time as given, not `round(t2 - t1, 3)`.
- PlateSolve.HdrOfNumbers: the field of view is the exact product, not `round(..., 6)` of a binary float.
- Binary floating point: numbers are exact reals. `float()` accepts the `[0-9.-]` texts the patterns capture. Exponents, `inf`/`nan`, surrounding whitespace, `+` and `_` are not modelled.
- How a float prints (`str`/`repr` of a real header value) is the parameter `showReal`. `repr` of a string is quoted without escaping.
- Regular expressions are written as matchers for these fixed patterns, not as a general engine. `\d` is ASCII digits only. `\s` is Python's set of whitespace characters.
- `str.format` takes the output template already split into text and `{KEY}` fields. Conversions, format specs, attribute and index fields, and brace escaping are not modelled.
- FITS headers with a repeated keyword are taken as the dict Python builds from them (the last value wins).
- `DELETE_COLS` in `fitsfilter.py` is not modelled: its only use is commented out.
- `--list-tokens` in `fitsfilter.py` is not modelled, and neither are `--verbose` printing and the echo of the rename command.
- The average and sum that `fitsprobe.py` prints after the loop are not modelled, and neither is the table layout. Only the collected values are modelled (`None` stands for NaN).
- FitsFilter.MoveAsWrittenMissesSource: compares path strings, not files; the model has no file system, so only `.` and `./` are recognised as the current directory, and other spellings of it (such as `raw/..`) are not excluded.
- FitsFilter.Derived, FitsFilter.DerivedIntended, FitsFilter.Scoped, FitsFilter.Pointing, FitsFilter.Exposure, FitsFilter.Finish, FitsFilter.FinishIntended: no single lemma states the contents of these compositions; their own ensures give only that keys stay distinct and `FILENAME` stays first (for `Scoped`, that `SCOPE` is present). The contents are stated step by step: each step's contract states what it sets and that it changes nothing else.

## Findings

| source | as written | input that shows it | evidently intended | confidence | as-written member | corrected member |
|---|---|---|---|---|---|---|
| fitsfilter.py:180 | for unequal pixel sizes, `PIXSIZE` is `(PIXSIZE1, PIXSIZE1)` | `PIXSIZE1 = 3.76`, `PIXSIZE2 = 2.9` gives `(3.76, 3.76)` | `(PIXSIZE1, PIXSIZE2)` | high, not executed | FitsFilter.PixSizeAsWrittenLosesHeight | FitsFilter.PixSizeIntended |
| astroprobe.py:163-172 | a `--test-file` record is `parse_buf`'s result plus `file` and `solve_time`, with no `solved` key, and `solve_res["solved"]` then raises `KeyError` | any `--test-file` run over one or more transcripts | a parsed transcript is a solved field and is written out | high, not executed | PlateSolve.TestFileAlwaysFailsAsWritten | PlateSolve.TestFileBatch |
| fitsfilter.py:152-213 | the header is read from `join(srcdir, filename)` but the rename moves `filename` from the current directory | a `--srcdir` other than the current directory with a relative file name, e.g. `--srcdir raw` with `m31.fits`, renames `m31.fits`, not `raw/m31.fits`; the default `.` is unaffected | rename the file that was read | medium, not executed | FitsFilter.MoveAsWrittenMissesSource | FitsFilter.MoveIntended |
