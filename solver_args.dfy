/** The command line that `solve_image` (astroprobe.py) hands to the external
    plate solver: a fixed prefix naming the solver and its working directory,
    one or two tokens per keyword option in keyword order, then the image. */
module SolverArgs {
  import opened Text

  /** A keyword option's value as `solve_image` sees it: the object `True`
      (the code tests `v is True`), or any other value, carried here as the
      text `str(v)` it is rendered to (`False` and `1` are other values). */
  datatype OptionValue = TrueValue | OtherValue(shown: string)

  /** The keyword options in the order they were passed. */
  type Options = seq<(string, OptionValue)>

  /** The tokens that come before the options: the solver and its working
      directory, given both as output and as temporary directory. */
  function Prefix(wd: string): (p: seq<string>)
    ensures |p| == 5 && p[0] == "solve-field" && p[2] == wd && p[4] == wd
  {
    ["solve-field", "--dir", wd, "--temp-dir", wd]
  }

  /** The flag for option `name`. */
  function FlagName(name: string): string
  {
    (if |name| == 1 then "-" else "--") + Replace(name, '_', '-')
  }

  /** A flag is one dash for a one-character name and two otherwise, followed
      by the name with every underscore turned into a dash; so no flag holds
      an underscore. */
  lemma FlagNameShape(name: string)
    ensures var flag, dashes := FlagName(name), |FlagName(name)| - |name|;
      && (dashes == 1 <==> |name| == 1)
      && (dashes == 2 <==> |name| != 1)
      && (forall i :: 0 <= i < dashes ==> flag[i] == '-')
      && (forall i :: 0 <= i < |name| ==>
            flag[dashes + i] == if name[i] == '_' then '-' else name[i])
    ensures '_' !in FlagName(name)
  {
    ReplaceRemoves(name, '_', '-');
  }

  /** The tokens one option contributes: a bare flag for `True`, otherwise
      the flag followed by the rendered value. */
  function TokensOf(opt: (string, OptionValue)): seq<string>
  {
    match opt.1
    case TrueValue => [FlagName(opt.0)]
    case OtherValue(shown) => [FlagName(opt.0), shown]
  }

  /** The tokens of all options, in keyword order. */
  function OptionTokens(opts: Options): seq<string>
  {
    if opts == [] then [] else TokensOf(opts[0]) + OptionTokens(opts[1..])
  }

  /** How many options are not `True`, each of which adds a value token. */
  function CountNotTrue(opts: Options): nat
  {
    if opts == [] then 0
    else (if opts[0].1.TrueValue? then 0 else 1) + CountNotTrue(opts[1..])
  }

  /** The complete argument vector of one solver run. */
  function SolverArgv(wd: string, img: string, opts: Options): seq<string>
  {
    Prefix(wd) + OptionTokens(opts) + [img]
  }

  lemma {:induction false} OptionTokensAppend(opts: Options, opt: (string, OptionValue))
    ensures OptionTokens(opts + [opt]) == OptionTokens(opts) + TokensOf(opt)
    ensures CountNotTrue(opts + [opt]) == CountNotTrue(opts) + (if opt.1.TrueValue? then 0 else 1)
  {
    if opts == [] {
      assert [opt][1..] == [];
    } else {
      assert (opts + [opt])[1..] == opts[1..] + [opt];
      OptionTokensAppend(opts[1..], opt);
    }
  }

  /** Each option gives one token, plus one for each option that is not `True`. */
  lemma {:induction false} OptionTokensLength(opts: Options)
    ensures |OptionTokens(opts)| == |opts| + CountNotTrue(opts)
  {
    if opts != [] {
      OptionTokensLength(opts[1..]);
    }
  }

  /** Where option `j` starts among the option tokens. */
  function OptionOffset(opts: Options, j: nat): nat
    requires j <= |opts|
  {
    j + CountNotTrue(opts[..j])
  }

  /** Option `j` appears at its offset: its flag, then its value unless it is `True`.
      So the options appear in keyword order and nothing else is interleaved. */
  lemma {:induction false} OptionTokensAt(opts: Options, j: nat)
    requires j < |opts|
    ensures var k := OptionOffset(opts, j);
      && k < |OptionTokens(opts)|
      && OptionTokens(opts)[k] == FlagName(opts[j].0)
      && (opts[j].1.OtherValue? ==>
            k + 1 < |OptionTokens(opts)| && OptionTokens(opts)[k + 1] == opts[j].1.shown)
  {
    OptionTokensLength(opts);
    if j == 0 {
      assert opts[..0] == [];
    } else {
      OptionTokensAt(opts[1..], j - 1);
      assert opts[..j] == [opts[0]] + opts[1..][..j - 1];
      assert opts[1..][..j - 1] == opts[..j][1..];
      OptionTokensLength(opts[1..]);
    }
  }

  /** The loop of `solve_image` that extends the argument list option by option. */
  method BuildSolverArgs(wd: string, img: string, opts: Options) returns (argv: seq<string>)
    ensures argv == SolverArgv(wd, img, opts)
    ensures |argv| == 6 + |opts| + CountNotTrue(opts)
    ensures argv[..5] == Prefix(wd) && argv[|argv| - 1] == img
  {
    argv := Prefix(wd);
    var i := 0;
    while i < |opts|
      invariant 0 <= i <= |opts|
      invariant argv == Prefix(wd) + OptionTokens(opts[..i])
    {
      var (name, value) := opts[i];
      var flag := FlagName(name);
      match value {
        case TrueValue =>
          argv := argv + [flag];
        case OtherValue(shown) =>
          argv := argv + [flag, shown];
      }
      OptionTokensAppend(opts[..i], opts[i]);
      assert opts[..i + 1] == opts[..i] + [opts[i]];
      i := i + 1;
    }
    assert opts[..i] == opts;
    argv := argv + [img];
    OptionTokensLength(opts);
  }

  /** A two-word option name: two dashes, the words joined by a dash. */
  lemma FlagNameOfWords(w1: string, w2: string)
    requires w1 != [] && '_' !in w1 && '_' !in w2
    ensures FlagName(w1 + "_" + w2) == "--" + w1 + "-" + w2
  {
    assert |w1 + "_" + w2| != 1;
    ReplaceAppend(w1 + "_", w2, '_', '-');
    ReplaceAppend(w1, "_", '_', '-');
    ReplaceAbsent(w1, '_', '-');
    ReplaceAbsent(w2, '_', '-');
    assert Replace("_", '_', '-') == "-";
  }

  lemma GuessScaleFlag()
    ensures FlagName("guess_scale") == "--guess-scale"
  {
    FlagNameOfWords("guess", "scale");
    assert "guess" + "_" + "scale" == "guess_scale";
    assert "--" + "guess" + "-" + "scale" == "--guess-scale";
  }

  /** `main` passes only `guess_scale=True`, so the solver always sees
      `--guess-scale` between the working directory and the image. */
  lemma MainSolverArgv(wd: string, img: string)
    ensures SolverArgv(wd, img, [("guess_scale", TrueValue)])
         == ["solve-field", "--dir", wd, "--temp-dir", wd, "--guess-scale", img]
  {
    OneTrueOption(wd, img, "guess_scale");
    GuessScaleFlag();
  }

  /** A single option set to `True` adds its bare flag. */
  lemma OneTrueOption(wd: string, img: string, name: string)
    ensures SolverArgv(wd, img, [(name, TrueValue)])
         == ["solve-field", "--dir", wd, "--temp-dir", wd, FlagName(name), img]
  {
    var opts: Options := [(name, TrueValue)];
    assert opts[1..] == [];
    assert OptionTokens(opts) == [FlagName(name)];
  }
}
