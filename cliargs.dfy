/** The option handling of the command-line tool (`src/args.ts`) after
    `node:util.parseArgs` has split the command line: the raw option values
    and the positionals are the input, the home directory and URL parsing are
    parameters. */
module CliArgs {
  import opened Wrappers
  import opened Text
  import opened Paths
  import opened WebUrl

  /** The options the tool runs with; an absent value is `None`. */
  datatype CliOptions = CliOptions(
    url: Option<string>,
    outputDir: string,
    filename: Option<string>,
    format: Option<string>,
    listFormats: bool,
    cookies: Option<string>,
    proxy: Option<string>,
    userAgent: Option<string>,
    quiet: bool,
    dryRun: bool,
    help: bool,
    version: bool)

  /** The values `parseArgs` reports; an option not given is `None`. */
  datatype RawValues = RawValues(
    output: Option<string>,
    filename: Option<string>,
    format: Option<string>,
    listFormats: Option<bool>,
    cookies: Option<string>,
    proxy: Option<string>,
    userAgent: Option<string>,
    quiet: Option<bool>,
    dryRun: Option<bool>,
    help: Option<bool>,
    version: Option<bool>)

  /** The problems `parseCliArgs` reports, in the order its checks run. */
  datatype CliError = OutputDirEmpty | FilenameEmpty | FormatEmpty | UrlMissing | TooManyUrls | UrlMalformed

  /** The message the tool prints for each problem. */
  function Message(e: CliError): string {
    match e
    case OutputDirEmpty => "输出目录不能为空。请使用 -o 或 --output 指定目录。"
    case FilenameEmpty => "文件名不能为空。请使用 -n 或 --filename 指定文件名。"
    case FormatEmpty => "格式不能为空。请使用 -f 或 --format 指定格式。"
    case UrlMissing => "缺少视频链接。请提供一条 X 视频链接。"
    case TooManyUrls => "当前仅支持一个链接。请只提供一个 X 视频链接。"
    case UrlMalformed => "链接格式不正确，请使用 http(s) 开头的链接。"
  }

  /** Position of a problem in the order of the checks. */
  function Rank(e: CliError): nat {
    match e
    case OutputDirEmpty => 0
    case FilenameEmpty => 1
    case FormatEmpty => 2
    case UrlMissing => 3
    case TooManyUrls => 4
    case UrlMalformed => 5
  }

  datatype ParseResult = ParseResult(options: CliOptions, errors: seq<CliError>)

  /** `isHttpUrl`: the value parses as a URL whose scheme is http or https. */
  predicate IsHttpUrl(parse: UrlParser, value: string)
    ensures IsHttpUrl(parse, value) ==> parse(value).Some?
    ensures IsHttpUrl(parse, value) ==> parse(value).value.protocol in ["http:", "https:"]
  {
    parse(value).Some? && IsHttpProtocol(parse(value).value.protocol)
  }

  /** `normalizeStringOption`: a given value, trimmed. */
  function NormalizeStringOption(value: Option<string>): (r: Option<string>)
    ensures r.None? <==> value.None?
    ensures r.Some? ==> r.value == Trim(value.value) && (r.value == "" <==> AllWhitespace(value.value))
  {
    if value.None? then None else Some(Trim(value.value))
  }

  /** `value ?? false` for a boolean option. */
  function FlagOrFalse(value: Option<bool>): bool {
    value.Some? && value.value
  }

  /** `DEFAULT_OUTPUT_DIR`: the `Downloads` directory under the home
      directory. */
  function DefaultOutputDir(homedir: string): (d: string)
    ensures !AllWhitespace(d)
  {
    DefaultOutputDirNotBlank(homedir);
    Join(homedir, "Downloads")
  }

  /** `value.trim()` is empty. */
  function IsBlank(s: string): (b: bool)
    ensures b <==> AllWhitespace(s)
  {
    |Trim(s)| == 0
  }

  /** `parseCliArgs` after `parseArgs`: trims the string options, defaults
      the output directory to `defaultDir` (`DefaultOutputDir` of the home
      directory) and the flags to false, and lists the problems found. */
  method ParseCliArgs(values: RawValues, positionals: seq<string>, defaultDir: string, parse: UrlParser)
    returns (r: ParseResult)
    ensures r.options.outputDir ==
              if values.output.Some? then Trim(values.output.value) else defaultDir
    ensures r.options.filename == NormalizeStringOption(values.filename)
    ensures r.options.format == NormalizeStringOption(values.format)
    ensures r.options.cookies == NormalizeStringOption(values.cookies)
    ensures r.options.proxy == NormalizeStringOption(values.proxy)
    ensures r.options.userAgent == NormalizeStringOption(values.userAgent)
    ensures r.options.listFormats == FlagOrFalse(values.listFormats)
    ensures r.options.quiet == FlagOrFalse(values.quiet)
    ensures r.options.dryRun == FlagOrFalse(values.dryRun)
    ensures r.options.help == FlagOrFalse(values.help)
    ensures r.options.version == FlagOrFalse(values.version)
    ensures r.options.url == if |positionals| == 0 then None else Some(positionals[0])
    ensures r.errors == Problems(values, positionals, defaultDir, parse)
  {
    var output := NormalizeStringOption(values.output);
    var outputDir := if output.Some? then output.value else defaultDir;
    var filename := NormalizeStringOption(values.filename);
    var format := NormalizeStringOption(values.format);
    var cookies := NormalizeStringOption(values.cookies);
    var proxy := NormalizeStringOption(values.proxy);
    var userAgent := NormalizeStringOption(values.userAgent);

    var errors := CheckValues(outputDir, filename, format);
    NormalizedBlankProblems(values, defaultDir);

    var help := FlagOrFalse(values.help);
    var version := FlagOrFalse(values.version);
    var url := if |positionals| > 0 then Some(positionals[0]) else None;

    var linkErrors := CheckLink(positionals, !help && !version, parse);
    errors := errors + linkErrors;

    if |positionals| == 0 {
      url := None;
    }

    var options := CliOptions(
      url, outputDir, filename, format, FlagOrFalse(values.listFormats), cookies, proxy, userAgent,
      FlagOrFalse(values.quiet), FlagOrFalse(values.dryRun), help, version);
    return ParseResult(options, errors);
  }

  /** The checks on the option values: the output directory, and the
      filename and format when given, must not be blank. */
  method CheckValues(outputDir: string, filename: Option<string>, format: Option<string>)
    returns (errors: seq<CliError>)
    ensures errors == BlankProblems(outputDir, filename, format)
  {
    errors := PushIfBlank([], Some(outputDir), OutputDirEmpty);
    errors := PushIfBlank(errors, filename, FilenameEmpty);
    errors := PushIfBlank(errors, format, FormatEmpty);
  }

  /** `if (value !== undefined && value.trim().length === 0) errors.push(…)`. */
  method PushIfBlank(errors: seq<CliError>, value: Option<string>, e: CliError) returns (r: seq<CliError>)
    ensures r == errors + (if value.Some? && AllWhitespace(value.value) then [e] else [])
  {
    r := errors;
    if value.Some? && IsBlank(value.value) {
      r := r + [e];
    }
  }

  /** The checks on the links, made only when `linkChecks` (neither help nor
      the version is asked for): exactly one link, and a non-empty first link
      must be an http(s) URL. */
  method CheckLink(positionals: seq<string>, linkChecks: bool, parse: UrlParser)
    returns (errors: seq<CliError>)
    ensures errors == LinkProblems(positionals, linkChecks, parse)
  {
    errors := [];
    var url := if |positionals| > 0 then Some(positionals[0]) else None;
    if linkChecks {
      if |positionals| == 0 {
        errors := errors + [UrlMissing];
      } else if |positionals| > 1 {
        errors := errors + [TooManyUrls];
      }
      if Truthy(url) && !IsHttpUrl(parse, url.value) {
        errors := errors + [UrlMalformed];
      }
    }
  }

  /** The blank values among an output directory, a filename and a format. */
  function BlankProblems(outputDir: string, filename: Option<string>, format: Option<string>): seq<CliError> {
    (if AllWhitespace(outputDir) then [OutputDirEmpty] else [])
    + (if filename.Some? && AllWhitespace(filename.value) then [FilenameEmpty] else [])
    + (if format.Some? && AllWhitespace(format.value) then [FormatEmpty] else [])
  }

  /** The problems with the links when they are checked. */
  function LinkProblems(positionals: seq<string>, linkChecks: bool, parse: UrlParser): seq<CliError> {
    (if linkChecks && |positionals| == 0 then [UrlMissing] else [])
    + (if linkChecks && |positionals| > 1 then [TooManyUrls] else [])
    + (if linkChecks && |positionals| > 0 && positionals[0] != "" && !IsHttpUrl(parse, positionals[0])
       then [UrlMalformed] else [])
  }

  /** The problems with a command line, in the order the checks run: a
      blank output directory, filename or format, then, unless help or the
      version is asked for, a missing link, more than one link, and a first
      link that is not an http(s) URL. */
  function Problems(values: RawValues, positionals: seq<string>, defaultDir: string, parse: UrlParser): seq<CliError> {
    var outputDir := if values.output.Some? then values.output.value else defaultDir;
    BlankProblems(outputDir, values.filename, values.format)
    + LinkProblems(positionals, !FlagOrFalse(values.help) && !FlagOrFalse(values.version), parse)
  }

  /** A trimmed value is blank exactly when the value is. */
  lemma TrimmedBlank(s: string)
    ensures AllWhitespace(Trim(s)) <==> AllWhitespace(s)
  {
    if Trim(s) != [] {
      assert !IsWhitespace(Trim(s)[0]);
    }
  }

  /** Trimming the values first finds the same blank values. */
  lemma NormalizedBlankProblems(values: RawValues, defaultDir: string)
    ensures var output := NormalizeStringOption(values.output);
            BlankProblems(if output.Some? then output.value else defaultDir,
                          NormalizeStringOption(values.filename), NormalizeStringOption(values.format))
            == BlankProblems(if values.output.Some? then values.output.value else defaultDir,
                             values.filename, values.format)
  {
    var output := NormalizeStringOption(values.output);
    var filename := NormalizeStringOption(values.filename);
    var format := NormalizeStringOption(values.format);
    assert AllWhitespace(if output.Some? then output.value else defaultDir)
           == AllWhitespace(if values.output.Some? then values.output.value else defaultDir) by {
      if values.output.Some? { TrimmedBlank(values.output.value); }
    }
    assert (filename.Some? && AllWhitespace(filename.value))
           == (values.filename.Some? && AllWhitespace(values.filename.value)) by {
      if values.filename.Some? { TrimmedBlank(values.filename.value); }
    }
    assert (format.Some? && AllWhitespace(format.value))
           == (values.format.Some? && AllWhitespace(values.format.value)) by {
      if values.format.Some? { TrimmedBlank(values.format.value); }
    }
  }

  /** Each problem is reported at most once, and in the order of the
      checks. */
  lemma ProblemsOrdered(values: RawValues, positionals: seq<string>, defaultDir: string, parse: UrlParser)
    ensures var ps := Problems(values, positionals, defaultDir, parse);
            forall i, j :: 0 <= i < j < |ps| ==> Rank(ps[i]) < Rank(ps[j])
  {
  }

  /** Asking for help or the version silences every check on the link. */
  lemma HelpSkipsLinkChecks(values: RawValues, positionals: seq<string>, defaultDir: string, parse: UrlParser)
    requires FlagOrFalse(values.help) || FlagOrFalse(values.version)
    ensures var ps := Problems(values, positionals, defaultDir, parse);
            UrlMissing !in ps && TooManyUrls !in ps && UrlMalformed !in ps
  {
    var outputDir := if values.output.Some? then values.output.value else defaultDir;
    var blank := BlankProblems(outputDir, values.filename, values.format);
    assert LinkProblems(positionals, false, parse) == [];
    assert Problems(values, positionals, defaultDir, parse) == blank + [];
    assert forall k :: 0 <= k < |blank| ==> Rank(blank[k]) < 3;
  }

  /** Unless help or the version is asked for: a missing link is reported
      exactly when no link is given, more than one link exactly when more
      are given, and a malformed link exactly when the first one is not
      empty and not an http(s) URL. */
  lemma LinkCountProblems(values: RawValues, positionals: seq<string>, defaultDir: string, parse: UrlParser)
    ensures var linkChecks := !FlagOrFalse(values.help) && !FlagOrFalse(values.version);
            var ps := Problems(values, positionals, defaultDir, parse);
            && (UrlMissing in ps <==> linkChecks && |positionals| == 0)
            && (TooManyUrls in ps <==> linkChecks && |positionals| > 1)
            && (UrlMalformed in ps <==>
                  linkChecks && |positionals| > 0 && positionals[0] != "" && !IsHttpUrl(parse, positionals[0]))
  {
    var outputDir := if values.output.Some? then values.output.value else defaultDir;
    var blank := BlankProblems(outputDir, values.filename, values.format);
    var linkChecks := !FlagOrFalse(values.help) && !FlagOrFalse(values.version);
    var link := LinkProblems(positionals, linkChecks, parse);
    assert UrlMissing !in blank && TooManyUrls !in blank && UrlMalformed !in blank;
    assert Problems(values, positionals, defaultDir, parse) == blank + link;
  }

  /** The default output directory is never blank: it ends with
      `Downloads`. */
  lemma DefaultOutputDirNotBlank(homedir: string)
    ensures !AllWhitespace(Join(homedir, "Downloads"))
  {
    JoinName(homedir, "Downloads");
    var n := NormalizeSegments(Segments(homedir), !IsAbsolute(homedir));
    JoinWithSnoc(n, "Downloads", "/");
    var dir := Join(homedir, "Downloads");
    assert dir[|dir| - 1] == 's';
  }

  /** With the default directory under the home directory, the output
      directory is reported blank exactly when one is given and it is
      blank. */
  lemma OutputDirProblem(values: RawValues, positionals: seq<string>, homedir: string, parse: UrlParser)
    ensures OutputDirEmpty in Problems(values, positionals, DefaultOutputDir(homedir), parse)
            <==> values.output.Some? && AllWhitespace(values.output.value)
  {
  }
}
