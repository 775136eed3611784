/**
 * `parseArgs` of spearbot-node/src/scripts/summarizer.ts: defaults, a scan
 * over the arguments in which every recognised flag takes the next argument
 * as its value, then validation. Every "print usage and exit" is a `Failure`
 * naming why. The current directory and the file-system check are parameters.
 */
module SummarizerArgs {
  import opened Wrappers
  import opened JsText
  import opened ArgScan

  /** The options; `None` is JavaScript's `undefined`, what `args[++i]` gives past the end. */
  datatype ProgOpts = ProgOpts(dir: Option<string>, exts: seq<string>, out: Option<string>, format: Option<string>)

  /** Why the program printed its usage and exited. */
  datatype Exit =
    | Help
    | InvalidArgument(arg: string)
    /** `args[++i].split(",")` on `undefined`: a `TypeError` rather than a usage exit */
    | ExtsWithoutValue
    | MissingDirectory(dir: string)
    | InvalidFormat(format: string)
    | InvalidOutput(out: Option<string>)

  const DefaultExts: seq<string> := ["text", "markdown", "solidity"]
  const DefaultOut: string := "summarization-results.json"
  const Json: string := "json"

  /** `Object.values(OutputFormat)`. */
  const OutputFormats: seq<string> := ["json", "markdown", "stdout"]

  const Flags: seq<string> := ["--dir", "--out", "--exts", "--format"]

  /** The options before any argument is read. */
  function Defaults(cwd: string): ProgOpts {
    ProgOpts(Some(cwd), DefaultExts, Some(DefaultOut), Some(Json))
  }

  /** One case of the `switch`: `flag` with the argument after it as its value. */
  function Apply(opts: ProgOpts, flag: string, value: Option<string>): (r: Result<ProgOpts, Exit>)
    ensures r.Success? <==> flag in Flags && (flag == "--exts" ==> value.Some?)
    ensures flag !in Flags ==> r == Failure(InvalidArgument(flag))
  {
    if flag == "--dir" then Success(opts.(dir := value))
    else if flag == "--out" then Success(opts.(out := value))
    else if flag == "--exts" then
      if value.None? then Failure(ExtsWithoutValue) else Success(opts.(exts := SplitOn(value.value, ',')))
    else if flag == "--format" then Success(opts.(format := value))
    else Failure(InvalidArgument(flag))
  }

  /** The three validation checks, in order; `pathExists` is `fs.existsSync`. */
  function Validate(opts: ProgOpts, pathExists: string -> bool): Result<ProgOpts, Exit> {
    if Truthy(opts.dir) && !pathExists(opts.dir.value) then Failure(MissingDirectory(opts.dir.value))
    else if Truthy(opts.format) && opts.format.value !in OutputFormats then Failure(InvalidFormat(opts.format.value))
    else if opts.out.None? || opts.out.value == "" then Failure(InvalidOutput(opts.out))
    else Success(opts)
  }

  /** `parseArgs(args)`: the options it returns, or why it exited. */
  function ParseArgs(args: seq<string>, cwd: string, pathExists: string -> bool): Result<ProgOpts, Exit> {
    if "--help" in args then Failure(Help)
    else
      match Scan(args, 0, Defaults(cwd), Apply)
      case Failure(e) => Failure(e)
      case Success(opts) => Validate(opts, pathExists)
  }

  /** `parseArgs`, with its index-bumping loop. */
  method ParseArgsLoop(args: seq<string>, cwd: string, pathExists: string -> bool) returns (r: Result<ProgOpts, Exit>)
    ensures r == ParseArgs(args, cwd, pathExists)
  {
    var options := Defaults(cwd);
    if "--help" in args {
      return Failure(Help);
    }
    var i := 0;
    while i < |args|
      invariant Scan(args, i, options, Apply) == Scan(args, 0, Defaults(cwd), Apply)
      decreases |args| - i
    {
      var arg := args[i];
      if arg == "--dir" {
        i := i + 1;
        options := options.(dir := ArgAt(args, i));
      } else if arg == "--out" {
        i := i + 1;
        options := options.(out := ArgAt(args, i));
      } else if arg == "--exts" {
        i := i + 1;
        var value := ArgAt(args, i);
        if value.None? {
          return Failure(ExtsWithoutValue);
        }
        options := options.(exts := SplitOn(value.value, ','));
      } else if arg == "--format" {
        i := i + 1;
        options := options.(format := ArgAt(args, i));
      } else {
        return Failure(InvalidArgument(arg));
      }
      i := i + 1;
    }
    if options.dir.Some? && options.dir.value != "" && !pathExists(options.dir.value) {
      return Failure(MissingDirectory(options.dir.value));
    }
    if options.format.Some? && options.format.value != "" && options.format.value !in OutputFormats {
      return Failure(InvalidFormat(options.format.value));
    }
    if options.out.None? || options.out.value == "" {
      return Failure(InvalidOutput(options.out));
    }
    return Success(options);
  }

  /*
   * Properties.
   */

  /** No arguments: the defaults, provided the current directory exists. */
  lemma NoArguments(cwd: string, pathExists: string -> bool)
    ensures ParseArgs([], cwd, pathExists).Success? <==> cwd == "" || pathExists(cwd)
    ensures ParseArgs([], cwd, pathExists).Success? ==> ParseArgs([], cwd, pathExists).value == Defaults(cwd)
  {
  }

  /** The last occurrence of a flag decides: earlier flag-value pairs are overridden by a later one. */
  lemma LaterFlagWins(args: seq<string>, flag: string, value: string, opts: ProgOpts)
    requires Pairs(args, 0, Flags) && flag in Flags
    ensures Scan(args, 0, opts, Apply).Success?
    ensures var r := Scan(args + [flag, value], 0, opts, Apply);
      var before := Scan(args, 0, opts, Apply).value;
      && r.Success?
      && (flag == "--dir" ==> r.value == before.(dir := Some(value)))
      && (flag == "--out" ==> r.value == before.(out := Some(value)))
      && (flag == "--format" ==> r.value == before.(format := Some(value)))
      && (flag == "--exts" ==> r.value == before.(exts := SplitOn(value, ',')))
  {
    ScanPairs(args, [flag, value], 0, opts, Apply, Flags);
  }

  /** An argument in flag position that is no flag stops the program there, whatever follows. */
  lemma UnknownArgumentExits(args: seq<string>, arg: string, rest: seq<string>, opts: ProgOpts)
    requires Pairs(args, 0, Flags) && arg !in Flags
    ensures Scan(args + ([arg] + rest), 0, opts, Apply) == Failure(InvalidArgument(arg))
  {
    UnknownArgumentStops(args, arg, rest, opts, Apply, Flags);
  }

  /** `--help` anywhere exits, even where it would be a flag's value. */
  lemma HelpAnywhere(args: seq<string>, cwd: string, pathExists: string -> bool)
    requires "--help" in args
    ensures ParseArgs(args, cwd, pathExists) == Failure(Help)
    ensures ParseArgs(["--out"] + args, cwd, pathExists) == Failure(Help)
  {
    assert "--help" in ["--out"] + args;
  }

  /**
   * Validation passes exactly when a non-empty directory pathExists, a non-empty
   * format is one of the output formats and the output name is non-empty:
   * an empty or missing directory or format is let through.
   */
  lemma ValidateExactly(opts: ProgOpts, pathExists: string -> bool)
    ensures Validate(opts, pathExists).Success? <==>
      && (opts.dir.None? || opts.dir.value == "" || pathExists(opts.dir.value))
      && (opts.format.None? || opts.format.value == "" || opts.format.value in OutputFormats)
      && opts.out.Some? && opts.out.value != ""
    ensures Validate(opts, pathExists).Success? ==> Validate(opts, pathExists).value == opts
  {
  }

  /** A trailing `--format` with no value leaves the format undefined, and that passes validation. */
  lemma TrailingFormatPasses(cwd: string, pathExists: string -> bool)
    requires pathExists(cwd)
    ensures ParseArgs(["--format"], cwd, pathExists) == Success(Defaults(cwd).(format := None))
  {
    assert "--help" !in ["--format"];
  }

  /** A trailing `--exts` with no value is a type error, not a usage exit. */
  lemma TrailingExtsFails(cwd: string, pathExists: string -> bool)
    ensures ParseArgs(["--exts"], cwd, pathExists) == Failure(ExtsWithoutValue)
  {
    assert "--help" !in ["--exts"];
  }
}
