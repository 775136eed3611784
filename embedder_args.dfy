/**
 * `parseArgs` of spearbot-node/src/scripts/embedder.ts: defaults, the same
 * flag-value scan as the summarizer's, then validation of the input path and
 * the input format. The output target is taken as given. The current
 * directory and the file-system check are parameters.
 */
module EmbedderArgs {
  import opened Wrappers
  import opened ArgScan

  /** The options; `None` is `undefined`, what `args[++i]` gives past the end. */
  datatype ProgOpts = ProgOpts(input: Option<string>, fmt: Option<string>, out: Option<string>, outfile: Option<string>)

  /** Why the program printed its usage and exited. */
  datatype Exit =
    | Help
    | InvalidArgument(arg: string)
    | InputNotSpecified
    | InputMissing(path: string)
    | InvalidFormat(fmt: string)
    | TextUnsupported

  const Json: string := "json"
  const Text: string := "text"

  /** `Object.values(InputFormat)`. */
  const InputFormats: seq<string> := ["json", "text"]

  const Hnsw: string := "hnsw"
  const Pinecone: string := "pinecone"
  const Both: string := "both"

  const Flags: seq<string> := ["--in", "--fmt", "--out", "--outdir"]

  /** The options before any argument is read. */
  function Defaults(cwd: string): ProgOpts {
    ProgOpts(Some(""), Some(Json), Some(Hnsw), Some(cwd + "/embeddings"))
  }

  /** One case of the `switch`. */
  function Apply(opts: ProgOpts, flag: string, value: Option<string>): (r: Result<ProgOpts, Exit>)
    ensures r.Success? <==> flag in Flags
    ensures flag !in Flags ==> r == Failure(InvalidArgument(flag))
  {
    if flag == "--in" then Success(opts.(input := value))
    else if flag == "--fmt" then Success(opts.(fmt := value))
    else if flag == "--out" then Success(opts.(out := value))
    else if flag == "--outdir" then Success(opts.(outfile := value))
    else Failure(InvalidArgument(flag))
  }

  /** The four validation checks, in order; `pathExists` is `fs.existsSync`. */
  function Validate(opts: ProgOpts, pathExists: string -> bool): Result<ProgOpts, Exit> {
    if !Truthy(opts.input) then Failure(InputNotSpecified)
    else if Truthy(opts.input) && !pathExists(opts.input.value) then Failure(InputMissing(opts.input.value))
    else if Truthy(opts.fmt) && opts.fmt.value !in InputFormats then Failure(InvalidFormat(opts.fmt.value))
    else if opts.fmt == Some(Text) then Failure(TextUnsupported)
    else Success(opts)
  }

  /** `parseArgs(args)`: the options it returns, or why it exited. */
  function ParseArgs(args: seq<string>, cwd: string, pathExists: string -> bool): Result<ProgOpts, Exit> {
    if "--help" in args then Failure(Help)
    else
      match Scan(args, 0, Defaults(cwd), Apply)
      case Failure(e) => Failure(e)
      case Success(opts) => Validate(opts, pathExists)
  }

  /** `parseArgs`, with its index-bumping loop. */
  method ParseArgsLoop(args: seq<string>, cwd: string, pathExists: string -> bool) returns (r: Result<ProgOpts, Exit>)
    ensures r == ParseArgs(args, cwd, pathExists)
  {
    var options := Defaults(cwd);
    if "--help" in args {
      return Failure(Help);
    }
    var i := 0;
    while i < |args|
      invariant Scan(args, i, options, Apply) == Scan(args, 0, Defaults(cwd), Apply)
      decreases |args| - i
    {
      var arg := args[i];
      if arg == "--in" {
        i := i + 1;
        options := options.(input := ArgAt(args, i));
      } else if arg == "--fmt" {
        i := i + 1;
        options := options.(fmt := ArgAt(args, i));
      } else if arg == "--out" {
        i := i + 1;
        options := options.(out := ArgAt(args, i));
      } else if arg == "--outdir" {
        i := i + 1;
        options := options.(outfile := ArgAt(args, i));
      } else {
        return Failure(InvalidArgument(arg));
      }
      i := i + 1;
    }
    if options.input.None? || options.input.value == "" {
      return Failure(InputNotSpecified);
    }
    if options.input.Some? && options.input.value != "" && !pathExists(options.input.value) {
      return Failure(InputMissing(options.input.value));
    }
    if options.fmt.Some? && options.fmt.value != "" && options.fmt.value !in InputFormats {
      return Failure(InvalidFormat(options.fmt.value));
    }
    if options.fmt == Some(Text) {
      return Failure(TextUnsupported);
    }
    return Success(options);
  }

  /*
   * Properties.
   */

  /** Without arguments there is no input file, so the program exits. */
  lemma NoArgumentsExit(cwd: string, pathExists: string -> bool)
    ensures ParseArgs([], cwd, pathExists) == Failure(InputNotSpecified)
  {
  }

  /** `--help` anywhere exits before anything else is looked at. */
  lemma HelpAnywhere(args: seq<string>, cwd: string, pathExists: string -> bool)
    requires "--help" in args
    ensures ParseArgs(args, cwd, pathExists) == Failure(Help)
    ensures ParseArgs(["--in"] + args, cwd, pathExists) == Failure(Help)
  {
    assert "--help" in ["--in"] + args;
  }

  /** An argument in flag position that is no flag stops the program there, whatever follows. */
  lemma UnknownArgumentExits(args: seq<string>, arg: string, rest: seq<string>, opts: ProgOpts)
    requires Pairs(args, 0, Flags) && arg !in Flags
    ensures Scan(args + ([arg] + rest), 0, opts, Apply) == Failure(InvalidArgument(arg))
  {
    UnknownArgumentStops(args, arg, rest, opts, Apply, Flags);
  }

  /** The output path is set by `--outdir` and by no other flag (the usage text's `--outfdir` is unknown). */
  lemma OnlyOutdirSetsOutfile(args: seq<string>, cwd: string, pathExists: string -> bool)
    requires "--outdir" !in args
    ensures ParseArgs(args, cwd, pathExists).Success? ==>
      ParseArgs(args, cwd, pathExists).value.outfile == Some(cwd + "/embeddings")
  {
    ScanKeeps(args, 0, Defaults(cwd), Apply, (o: ProgOpts) => o.outfile, "--outdir");
  }

  /** The usage text's `--outfdir` stops the program as an unknown argument. */
  lemma OutfdirIsUnknown(value: string, cwd: string, pathExists: string -> bool)
    requires value != "--help"
    ensures ParseArgs(["--outfdir", value], cwd, pathExists) == Failure(InvalidArgument("--outfdir"))
  {
    assert "--outfdir" !in Flags;
    assert "--help" !in ["--outfdir", value];
  }

  /**
   * Validation passes exactly when a non-empty input path exists and the
   * format is `json`, empty or missing: `text` and every other format exit.
   */
  lemma ValidateExactly(opts: ProgOpts, pathExists: string -> bool)
    ensures Validate(opts, pathExists).Success? <==>
      && Truthy(opts.input) && pathExists(opts.input.value)
      && (opts.fmt == None || opts.fmt == Some("") || opts.fmt == Some(Json))
    ensures Validate(opts, pathExists).Success? ==> Validate(opts, pathExists).value == opts
  {
  }

  /** The output target is never checked: changing it or the output path changes nothing in validation. */
  lemma OutputNotValidated(opts: ProgOpts, out: Option<string>, outfile: Option<string>, pathExists: string -> bool)
    ensures Validate(opts.(out := out, outfile := outfile), pathExists).Success?
      == Validate(opts, pathExists).Success?
  {
  }
}
