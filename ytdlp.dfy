/** The yt-dlp invocation of the command-line tool (`src/yt-dlp.ts`): the
    argument list built from the parsed options, the output template, and
    the shell-quoted line shown to the user. Spawning the process is not
    modelled. */
module YtDlp {
  import opened Wrappers
  import opened Text
  import opened Paths
  import opened CliArgs

  const DefaultTemplate := "%(title)s.%(ext)s"
  const DefaultFormat := "bestvideo*+bestaudio/best"
  const BinName := "yt-dlp"
  const MissingUrlMessage := "缺少视频链接。"

  datatype YtDlpCommand = YtDlpCommand(bin: string, args: seq<string>, display: string, outputTemplate: string)

  /** `buildOutputTemplate`: an absolute filename as given, a relative one
      under the output directory, and yt-dlp's title-and-extension
      template under it when no filename is given. A plain name, or the
      default template, becomes the one segment after the normalized output
      directory. */
  function BuildOutputTemplate(outputDir: string, filename: Option<string>): (t: string)
    ensures Truthy(filename) && IsAbsolute(filename.value) ==> t == filename.value
    ensures !Truthy(filename) || IsName(filename.value) ==>
              var last := if Truthy(filename) then filename.value else DefaultTemplate;
              t == Render(IsAbsolute(outputDir),
                          NormalizeSegments(Segments(outputDir), !IsAbsolute(outputDir)) + [last])
  {
    if Truthy(filename) then
      if IsAbsolute(filename.value) then filename.value
      else if IsName(filename.value) then (JoinName(outputDir, filename.value); Join(outputDir, filename.value))
      else Join(outputDir, filename.value)
    else (JoinName(outputDir, DefaultTemplate); Join(outputDir, DefaultTemplate))
  }

  /** The filenames `..` and `.` are relative and hold no separator, yet
      add no segment: `..` makes the template the output directory's
      parent, and `.` the output directory itself. */
  lemma DotFilenameTemplates()
    ensures BuildOutputTemplate("/d", Some("..")) == "/"
    ensures BuildOutputTemplate("/d", Some(".")) == "/d"
  {
    JoinDotDot();
    JoinDot();
  }

  /** The format asked of yt-dlp: the one given, otherwise the default
      unless only the list of formats is wanted. */
  function EffectiveFormat(options: CliOptions): Option<string> {
    if Truthy(options.format) then options.format
    else if !options.listFormats then Some(DefaultFormat)
    else None
  }

  /** A string option passed on only when it is non-empty. */
  function Given(value: Option<string>): Option<string> {
    if Truthy(value) then value else None
  }

  /** What yt-dlp is told by the options before the output template. */
  datatype Settings = Settings(
    listFormats: bool,
    format: Option<string>,
    cookies: Option<string>,
    proxy: Option<string>,
    userAgent: Option<string>,
    quiet: bool,
    noWarnings: bool)

  const NoSettings := Settings(false, None, None, None, None, false, false)

  /** A whole invocation as yt-dlp reads it. */
  datatype Invocation = Invocation(settings: Settings, outputTemplate: string, url: string)

  /** Reads options the way yt-dlp does, a value option taking the next
      argument whatever it is, up to the closing `-o <template> -- <url>`. */
  function ReadOptions(ts: seq<string>, s: Settings): Option<Invocation>
    decreases |ts|
  {
    if |ts| == 4 && ts[0] == "-o" && ts[2] == "--" then Some(Invocation(s, ts[1], ts[3]))
    else if ts == [] then None
    else if ts[0] == "-F" then ReadOptions(ts[1..], s.(listFormats := true))
    else if ts[0] == "-q" then ReadOptions(ts[1..], s.(quiet := true))
    else if ts[0] == "--no-warnings" then ReadOptions(ts[1..], s.(noWarnings := true))
    else if |ts| < 2 then None
    else if ts[0] == "-f" then ReadOptions(ts[2..], s.(format := Some(ts[1])))
    else if ts[0] == "--cookies" then ReadOptions(ts[2..], s.(cookies := Some(ts[1])))
    else if ts[0] == "--proxy" then ReadOptions(ts[2..], s.(proxy := Some(ts[1])))
    else if ts[0] == "--user-agent" then ReadOptions(ts[2..], s.(userAgent := Some(ts[1])))
    else None
  }

  /** An argument list that starts by turning off playlists, read back. */
  function ReadArgs(args: seq<string>): Option<Invocation> {
    if args != [] && args[0] == "--no-playlist" then ReadOptions(args[1..], NoSettings) else None
  }

  /** One option as `BuildYtDlpCommand` pushes it: a flag, or a value
      option followed by its value. */
  predicate IsPiece(piece: seq<string>) {
    || piece == ["-F"]
    || piece == ["-q", "--no-warnings"]
    || (|piece| == 2 && piece[0] in {"-f", "--cookies", "--proxy", "--user-agent"})
  }

  /** What reading a piece adds to the settings. */
  function Apply(piece: seq<string>, s: Settings): Settings
    requires IsPiece(piece)
  {
    if piece == ["-F"] then s.(listFormats := true)
    else if piece == ["-q", "--no-warnings"] then s.(quiet := true, noWarnings := true)
    else if piece[0] == "-f" then s.(format := Some(piece[1]))
    else if piece[0] == "--cookies" then s.(cookies := Some(piece[1]))
    else if piece[0] == "--proxy" then s.(proxy := Some(piece[1]))
    else s.(userAgent := Some(piece[1]))
  }

  /** Reading a piece in front of more arguments. */
  lemma ReadPiece(piece: seq<string>, rest: seq<string>, s: Settings)
    requires IsPiece(piece)
    ensures ReadOptions(piece + rest, s) == ReadOptions(rest, Apply(piece, s))
  {
    if piece == ["-q", "--no-warnings"] {
      assert (piece + rest)[1..] == ["--no-warnings"] + rest;
      assert (["--no-warnings"] + rest)[1..] == rest;
    } else if |piece| == 1 {
      assert (piece + rest)[1..] == rest;
    } else {
      assert (piece + rest)[2..] == rest;
    }
  }

  predicate AllPieces(pieces: seq<seq<string>>) {
    forall k :: 0 <= k < |pieces| ==> IsPiece(pieces[k])
  }

  /** The arguments the pieces make, in order. */
  function Flatten(pieces: seq<seq<string>>): seq<string> {
    if pieces == [] then [] else Flatten(pieces[..|pieces| - 1]) + pieces[|pieces| - 1]
  }

  /** The settings reading the pieces in order adds. */
  function ApplyAll(pieces: seq<seq<string>>, s: Settings): Settings
    requires AllPieces(pieces)
  {
    if pieces == [] then s else Apply(pieces[|pieces| - 1], ApplyAll(pieces[..|pieces| - 1], s))
  }

  /** Reading pieces in front of more arguments. */
  lemma {:induction false} ReadFlatten(pieces: seq<seq<string>>, rest: seq<string>, s: Settings)
    requires AllPieces(pieces)
    ensures ReadOptions(Flatten(pieces) + rest, s) == ReadOptions(rest, ApplyAll(pieces, s))
  {
    if pieces != [] {
      var init := pieces[..|pieces| - 1];
      var last := pieces[|pieces| - 1];
      assert Flatten(pieces) + rest == Flatten(init) + (last + rest);
      ReadFlatten(init, last + rest, s);
      ReadPiece(last, rest, ApplyAll(init, s));
    } else {
      assert Flatten(pieces) + rest == rest;
    }
  }

  /** No piece, or the one piece when `cond` holds. */
  function When(cond: bool, piece: seq<string>): seq<seq<string>> {
    if cond then [piece] else []
  }

  /** A string option's piece, when the value is non-empty. */
  function GivenPiece(flag: string, value: Option<string>): seq<seq<string>> {
    if Truthy(value) then [[flag, value.value]] else []
  }

  /** The format's piece: the given format, or the default one unless only
      the list of formats is wanted. */
  function FormatPieces(options: CliOptions): seq<seq<string>> {
    if Truthy(options.format) then [["-f", options.format.value]]
    else When(!options.listFormats, ["-f", DefaultFormat])
  }

  /** The pieces `buildYtDlpCommand` pushes after `--no-playlist`, in the
      fixed order of its tests: list formats, format, cookies, proxy, user
      agent, quiet. */
  function Pieces(options: CliOptions): seq<seq<string>> {
    When(options.listFormats, ["-F"])
    + FormatPieces(options)
    + GivenPiece("--cookies", options.cookies)
    + GivenPiece("--proxy", options.proxy)
    + GivenPiece("--user-agent", options.userAgent)
    + When(options.quiet, ["-q", "--no-warnings"])
  }

  /** `args` is the playlist switch followed by the pieces, which give
      the settings `s`. */
  ghost predicate Tracks(args: seq<string>, pieces: seq<seq<string>>, s: Settings) {
    && args == ["--no-playlist"] + Flatten(pieces)
    && AllPieces(pieces)
    && ApplyAll(pieces, NoSettings) == s
  }

  /** Pushing one more piece. */
  lemma Push(args: seq<string>, pieces: seq<seq<string>>, s: Settings, piece: seq<string>, next: Settings)
    requires Tracks(args, pieces, s) && IsPiece(piece) && next == Apply(piece, s)
    ensures Tracks(args + piece, pieces + [piece], next)
  {
    assert (pieces + [piece])[..|pieces|] == pieces;
  }

  /** The arguments, closed by any `-o <template> -- <url>`, read back as
      the settings. */
  lemma Closed(args: seq<string>, pieces: seq<seq<string>>, s: Settings)
    requires Tracks(args, pieces, s)
    ensures args != [] && args[0] == "--no-playlist"
    ensures forall tail {:trigger ReadArgs(args + tail)} :: |tail| == 4 && tail[0] == "-o" && tail[2] == "--" ==>
              ReadArgs(args + tail) == Some(Invocation(s, tail[1], tail[3]))
  {
    forall tail: seq<string> | |tail| == 4 && tail[0] == "-o" && tail[2] == "--"
      ensures ReadArgs(args + tail) == Some(Invocation(s, tail[1], tail[3]))
    {
      assert (args + tail)[1..] == Flatten(pieces) + tail;
      ReadFlatten(pieces, tail, NoSettings);
    }
  }

  /** `buildYtDlpCommand`: fails without a link; otherwise the arguments
      are the options (`OptionArgs`) followed by the output template and,
      after `--`, the link, and the displayed line quotes them all. */
  method BuildYtDlpCommand(options: CliOptions) returns (r: Result<YtDlpCommand, string>)
    ensures r.Err? <==> !Truthy(options.url)
    ensures r.Err? ==> r.error == MissingUrlMessage
    ensures r.Ok? ==>
              var c := r.value;
              && c.bin == BinName
              && c.outputTemplate == BuildOutputTemplate(options.outputDir, options.filename)
              && c.display == FormatCommandForDisplay(BinName, c.args)
              && |c.args| >= 5
              && c.args[0] == "--no-playlist"
              && c.args == ["--no-playlist"] + Flatten(Pieces(options))
                           + ["-o", c.outputTemplate, "--", options.url.value]
              && c.args[|c.args| - 4..] == ["-o", c.outputTemplate, "--", options.url.value]
              && ReadArgs(c.args) == Some(Invocation(Requested(options), c.outputTemplate, options.url.value))
  {
    if !Truthy(options.url) {
      return Err(MissingUrlMessage);
    }
    var url := options.url.value;
    var outputTemplate := BuildOutputTemplate(options.outputDir, options.filename);
    var args := OptionArgs(options);
    var tail := ["-o", outputTemplate, "--", url];
    assert ReadArgs(args + tail) == Some(Invocation(Requested(options), outputTemplate, url));
    args := args + tail;
    assert args[|args| - 4..] == tail;
    var display := FormatCommandForDisplay(BinName, args);
    return Ok(YtDlpCommand(BinName, args, display, outputTemplate));
  }

  /** The arguments `buildYtDlpCommand` pushes before the output template:
      playlists off, then the list-formats flag, the format (or the
      default), the cookies file, the proxy, the user agent and quiet mode.
      Closed by any `-o <template> -- <url>`, they read back as the settings
      the options ask for. */
  method OptionArgs(options: CliOptions) returns (args: seq<string>)
    ensures args != [] && args[0] == "--no-playlist"
    ensures args == ["--no-playlist"] + Flatten(Pieces(options))
    ensures forall tail {:trigger ReadArgs(args + tail)} :: |tail| == 4 && tail[0] == "-o" && tail[2] == "--" ==>
              ReadArgs(args + tail) == Some(Invocation(Requested(options), tail[1], tail[3]))
  {
    args := ["--no-playlist"];
    // The options pushed so far, one piece each, and the settings they give.
    ghost var pieces: seq<seq<string>> := [];
    ghost var s := NoSettings;
    assert Tracks(args, pieces, s);

    args, pieces, s := PushIf(options.listFormats, ["-F"], args, pieces, s);
    assert pieces == When(options.listFormats, ["-F"]);
    args, pieces, s := PushFormat(options, args, pieces, s);
    args, pieces, s := PushStrings(options, args, pieces, s);
    args, pieces, s := PushIf(options.quiet, ["-q", "--no-warnings"], args, pieces, s);
    assert pieces == Pieces(options);
    assert s == Requested(options) by {
      RequestedSettings(options);
    }
    Closed(args, pieces, s);
  }

  /** The cookies file, the proxy and the user agent, each when given. */
  method PushStrings(options: CliOptions, args: seq<string>, ghost pieces: seq<seq<string>>, ghost s: Settings)
    returns (r: seq<string>, ghost rPieces: seq<seq<string>>, ghost rs: Settings)
    requires Tracks(args, pieces, s)
    ensures r == args + Flatten(GivenPiece("--cookies", options.cookies))
                      + Flatten(GivenPiece("--proxy", options.proxy))
                      + Flatten(GivenPiece("--user-agent", options.userAgent))
    ensures rPieces == pieces + GivenPiece("--cookies", options.cookies)
                      + GivenPiece("--proxy", options.proxy)
                      + GivenPiece("--user-agent", options.userAgent)
    ensures Tracks(r, rPieces, rs)
    ensures var s3 := if Truthy(options.cookies) then Apply(["--cookies", options.cookies.value], s) else s;
            var s4 := if Truthy(options.proxy) then Apply(["--proxy", options.proxy.value], s3) else s3;
            rs == if Truthy(options.userAgent) then Apply(["--user-agent", options.userAgent.value], s4) else s4
  {
    r, rPieces, rs := PushGiven("--cookies", options.cookies, args, pieces, s);
    r, rPieces, rs := PushGiven("--proxy", options.proxy, r, rPieces, rs);
    r, rPieces, rs := PushGiven("--user-agent", options.userAgent, r, rPieces, rs);
  }

  /** The given format, or the default one unless only the list of formats
      is wanted. */
  method PushFormat(options: CliOptions, args: seq<string>, ghost pieces: seq<seq<string>>, ghost s: Settings)
    returns (r: seq<string>, ghost rPieces: seq<seq<string>>, ghost rs: Settings)
    requires Tracks(args, pieces, s)
    ensures r == args + Flatten(FormatPieces(options))
    ensures rPieces == pieces + FormatPieces(options)
    ensures Tracks(r, rPieces, rs)
    ensures rs == if Truthy(options.format) then Apply(["-f", options.format.value], s)
                  else if !options.listFormats then Apply(["-f", DefaultFormat], s) else s
  {
    r, rPieces, rs := args, pieces, s;
    if Truthy(options.format) {
      r, rPieces, rs := PushIf(true, ["-f", options.format.value], args, pieces, s);
    } else if !options.listFormats {
      r, rPieces, rs := PushIf(true, ["-f", DefaultFormat], args, pieces, s);
    }
  }

  /** `if (cond) args.push(...piece)`, and what reading the piece adds. */
  method PushIf(cond: bool, piece: seq<string>, args: seq<string>, ghost pieces: seq<seq<string>>, ghost s: Settings)
    returns (r: seq<string>, ghost rPieces: seq<seq<string>>, ghost rs: Settings)
    requires IsPiece(piece) && Tracks(args, pieces, s)
    ensures r == if cond then args + piece else args
    ensures rPieces == pieces + When(cond, piece)
    ensures Tracks(r, rPieces, rs)
    ensures rs == if cond then Apply(piece, s) else s
  {
    r, rPieces, rs := args, pieces, s;
    if cond {
      Push(args, pieces, s, piece, Apply(piece, s));
      r := args + piece;
      rPieces, rs := pieces + [piece], Apply(piece, s);
    }
  }

  /** `if (value) args.push(flag, value)`: a string option passed on with
      its flag when it is non-empty. */
  method PushGiven(flag: string, value: Option<string>, args: seq<string>, ghost pieces: seq<seq<string>>, ghost s: Settings)
    returns (r: seq<string>, ghost rPieces: seq<seq<string>>, ghost rs: Settings)
    requires flag in {"--cookies", "--proxy", "--user-agent"} && Tracks(args, pieces, s)
    ensures r == if Truthy(value) then args + [flag, value.value] else args
    ensures r == args + Flatten(GivenPiece(flag, value))
    ensures rPieces == pieces + GivenPiece(flag, value)
    ensures Tracks(r, rPieces, rs)
    ensures rs == if Truthy(value) then Apply([flag, value.value], s) else s
  {
    r, rPieces, rs := args, pieces, s;
    if Truthy(value) {
      r, rPieces, rs := PushIf(true, [flag, value.value], args, pieces, s);
      assert GivenPiece(flag, value)[..0] == [];
    } else {
      assert args + [] == args;
    }
  }

  /** Reading the pieces `OptionArgs` pushes, in order, gives the settings
      the options ask for. */
  lemma RequestedSettings(options: CliOptions)
    ensures
      var s1 := if options.listFormats then Apply(["-F"], NoSettings) else NoSettings;
      var s2 := if Truthy(options.format) then Apply(["-f", options.format.value], s1)
                else if !options.listFormats then Apply(["-f", DefaultFormat], s1) else s1;
      var s3 := if Truthy(options.cookies) then Apply(["--cookies", options.cookies.value], s2) else s2;
      var s4 := if Truthy(options.proxy) then Apply(["--proxy", options.proxy.value], s3) else s3;
      var s5 := if Truthy(options.userAgent) then Apply(["--user-agent", options.userAgent.value], s4) else s4;
      var s6 := if options.quiet then Apply(["-q", "--no-warnings"], s5) else s5;
      s6 == Requested(options)
  {
  }

  /** The settings the options ask for: flags as given, the effective
      format, and the string options that are non-empty. */
  function Requested(options: CliOptions): Settings {
    Settings(options.listFormats, EffectiveFormat(options), Given(options.cookies),
             Given(options.proxy), Given(options.userAgent), options.quiet, options.quiet)
  }

  /** Characters a word may hold unquoted: `[A-Za-z0-9_./:-]`. */
  predicate IsSafeChar(c: char) {
    ('A' <= c <= 'Z') || ('a' <= c <= 'z') || ('0' <= c <= '9')
    || c == '_' || c == '.' || c == '/' || c == ':' || c == '-'
  }

  /** A non-empty word of safe characters only. */
  predicate IsSafe(s: string) {
    s != [] && forall k :: 0 <= k < |s| ==> IsSafeChar(s[k])
  }

  /** `replaceAll` of one character by a string. */
  function ReplaceAll(s: string, c: char, with: string): string {
    if s == [] then "" else (if s[0] == c then with else [s[0]]) + ReplaceAll(s[1..], c, with)
  }

  lemma {:induction false} ReplaceAllAppend(a: string, b: string, c: char, with: string)
    ensures ReplaceAll(a + b, c, with) == ReplaceAll(a, c, with) + ReplaceAll(b, c, with)
  {
    if a != [] {
      assert (a + b)[1..] == a[1..] + b;
      ReplaceAllAppend(a[1..], b, c, with);
    } else {
      assert a + b == b;
    }
  }

  /** Every backslash and double quote with a backslash in front. */
  function Escape(s: string): string {
    if s == [] then ""
    else (if s[0] == '\\' || s[0] == '"' then ['\\', s[0]] else [s[0]]) + Escape(s[1..])
  }

  /** The two `replaceAll` passes escape each backslash and double quote
      once: the backslashes the second pass adds are not escaped again. */
  lemma {:induction false} EscapeInTwoPasses(s: string)
    ensures ReplaceAll(ReplaceAll(s, '\\', "\\\\"), '"', "\\\"") == Escape(s)
  {
    if s != [] {
      var head := if s[0] == '\\' then "\\\\" else [s[0]];
      assert ReplaceAll(s, '\\', "\\\\") == head + ReplaceAll(s[1..], '\\', "\\\\");
      ReplaceAllAppend(head, ReplaceAll(s[1..], '\\', "\\\\"), '"', "\\\"");
      EscapeInTwoPasses(s[1..]);
      if s[0] == '\\' {
        assert ReplaceAll(head, '"', "\\\"") == "\\\\" by {
          assert head[1..][1..] == [];
        }
      } else {
        assert ReplaceAll(head, '"', "\\\"") == if s[0] == '"' then "\\\"" else [s[0]] by {
          assert head[1..] == [];
        }
      }
    }
  }

  /** `quoteForShell`: a safe word as it is, anything else in double quotes
      with its backslashes and double quotes escaped. */
  function QuoteForShell(value: string): (q: string)
    ensures IsSafe(value) ==> q == value
    ensures !IsSafe(value) ==> q == "\"" + Escape(value) + "\""
  {
    if IsSafe(value) then value
    else
      EscapeInTwoPasses(value);
      "\"" + ReplaceAll(ReplaceAll(value, '\\', "\\\\"), '"', "\\\"") + "\""
  }

  /** Quoting leaves a word as it is exactly when the word is safe. */
  lemma QuoteUnchangedIffSafe(value: string)
    ensures QuoteForShell(value) == value <==> IsSafe(value)
  {
    if !IsSafe(value) {
      EscapeLength(value);
      assert |QuoteForShell(value)| > |value|;
    }
  }

  lemma {:induction false} EscapeLength(s: string)
    ensures |Escape(s)| >= |s|
  {
    if s != [] {
      EscapeLength(s[1..]);
    }
  }

  function QuoteAll(words: seq<string>): (r: seq<string>)
    ensures |r| == |words|
  {
    if words == [] then [] else [QuoteForShell(words[0])] + QuoteAll(words[1..])
  }

  /** A word without `$` or a backquote, the two characters that can
      start an expansion inside double quotes. */
  predicate ExpansionFree(w: string) {
    '$' !in w && '`' !in w
  }

  predicate AllExpansionFree(words: seq<string>) {
    forall k :: 0 <= k < |words| ==> ExpansionFree(words[k])
  }

  /** `formatCommandForDisplay`: the program and its arguments, each quoted,
      separated by single spaces. The reader `Words` reads the line back as
      the program and its arguments exactly when none of them holds `$` or a
      backquote. That reader refuses every `$`, where a shell expands one
      only before a name character, a digit, a special parameter, `{` or
      `(`; so the condition is sufficient for a shell, not necessary. */
  function FormatCommandForDisplay(bin: string, args: seq<string>): (line: string)
    ensures Words(line) == Some([bin] + args) <==> AllExpansionFree([bin] + args)
  {
    WordsOfQuoted([bin] + args);
    JoinWith(QuoteAll([bin] + args), " ")
  }

  /** The longest prefix without a space, and what follows it. */
  function ReadBare(s: string): (r: (string, string))
    ensures r.0 + r.1 == s
    ensures ' ' !in r.0
    ensures r.1 == [] || r.1[0] == ' '
  {
    if s == [] || s[0] == ' ' then ("", s)
    else
      var (w, rest) := ReadBare(s[1..]);
      assert [s[0]] + (w + rest) == s;
      assert forall k :: 0 < k < |w| + 1 ==> ([s[0]] + w)[k] == w[k - 1];
      ([s[0]] + w, rest)
  }

  /** The characters a backslash escapes inside POSIX double quotes. */
  predicate IsQuotedEscapable(c: char) {
    c == '$' || c == '`' || c == '"' || c == '\\' || c == '\n'
  }

  /** The inside of a double-quoted word up to its closing quote, read by
      the POSIX backslash rules for double quotes, and what follows the
      closing quote. A backslash escapes `$`, a backquote, `"`, a backslash
      and a newline (which it removes) and is kept before any other
      character. An unescaped backquote always starts an expansion; an
      unescaped `$` starts one only before a name character, a digit, a
      special parameter, `{` or `(`. This reader performs no expansion and
      conservatively fails on every unescaped `$` and backquote. */
  function ReadQuoted(s: string): (r: Option<(string, string)>)
    ensures r.Some? ==> |r.value.1| < |s|
  {
    if s == [] then None
    else if s[0] == '"' then Some(("", s[1..]))
    else if s[0] == '$' || s[0] == '`' then None
    else if s[0] == '\\' && |s| >= 2 && IsQuotedEscapable(s[1]) then
      match ReadQuoted(s[2..])
      case None => None
      case Some((w, rest)) => Some((if s[1] == '\n' then w else [s[1]] + w, rest))
    else
      match ReadQuoted(s[1..])
      case None => None
      case Some((w, rest)) => Some(([s[0]] + w, rest))
  }

  /** One word, double-quoted or bare, as the reader takes it. A bare word
      is accepted only when it is made of characters a shell takes
      literally, `[A-Za-z0-9_./:-]`. */
  function ReadWord(s: string): (r: Option<(string, string)>)
    ensures r.Some? ==> |r.value.1| <= |s|
  {
    if s != [] && s[0] == '"' then ReadQuoted(s[1..])
    else
      var (w, rest) := ReadBare(s);
      if IsSafe(w) then Some((w, rest)) else None
  }

  /** The words of a line whose words are separated by single spaces. */
  function Words(s: string): Option<seq<string>>
    decreases |s|
  {
    match ReadWord(s)
    case None => None
    case Some((w, rest)) =>
      if rest == [] then Some([w])
      else if rest[0] != ' ' then None
      else
        match Words(rest[1..])
        case None => None
        case Some(ws) => Some([w] + ws)
  }

  /** Reading one character that needs no escape inside double quotes. */
  lemma ReadQuotedPlain(c: char, more: string)
    requires c != '"' && c != '\\' && c != '$' && c != '`'
    ensures ReadQuoted([c] + more)
            == match ReadQuoted(more)
               case None => None
               case Some((w, rest)) => Some(([c] + w, rest))
  {
    assert ([c] + more)[1..] == more;
  }

  /** Reading an escaped backslash or double quote. */
  lemma ReadQuotedEscaped(c: char, more: string)
    requires c == '"' || c == '\\'
    ensures ReadQuoted(['\\', c] + more)
            == match ReadQuoted(more)
               case None => None
               case Some((w, rest)) => Some(([c] + w, rest))
  {
    assert (['\\', c] + more)[2..] == more;
  }

  /** An escaped word before its closing quote starts with its escaped
      first character. */
  lemma EscapeFront(w: string, rest: string)
    requires w != []
    ensures Escape(w) + "\"" + rest
            == (if w[0] == '\\' || w[0] == '"' then ['\\', w[0]] else [w[0]])
               + (Escape(w[1..]) + "\"" + rest)
  {
  }

  /** Reading back an escaped word free of expansions, and its closing
      quote. */
  lemma {:induction false} ReadEscaped(w: string, rest: string)
    requires ExpansionFree(w)
    ensures ReadQuoted(Escape(w) + "\"" + rest) == Some((w, rest))
  {
    if w == [] {
      assert Escape(w) + "\"" + rest == "\"" + rest;
    } else {
      var more := Escape(w[1..]) + "\"" + rest;
      assert w[0] in w;
      assert ExpansionFree(w[1..]) by {
        assert forall c :: c in w[1..] ==> c in w;
      }
      ReadEscaped(w[1..], rest);
      assert [w[0]] + w[1..] == w;
      EscapeFront(w, rest);
      if w[0] == '\\' || w[0] == '"' {
        ReadQuotedEscaped(w[0], more);
      } else {
        ReadQuotedPlain(w[0], more);
      }
    }
  }

  /** An escaped word that holds `$` or a backquote is not read back: the
      reader refuses it, since a shell may expand it. */
  lemma {:induction false} ReadEscapedExpansion(w: string, rest: string)
    requires !ExpansionFree(w)
    ensures ReadQuoted(Escape(w) + "\"" + rest).None?
  {
    var more := Escape(w[1..]) + "\"" + rest;
    if w[0] == '$' || w[0] == '`' {
      assert (Escape(w) + "\"" + rest)[0] == w[0];
    } else {
      assert !ExpansionFree(w[1..]) by {
        assert w == [w[0]] + w[1..];
      }
      ReadEscapedExpansion(w[1..], rest);
      EscapeFront(w, rest);
      if w[0] == '\\' || w[0] == '"' {
        ReadQuotedEscaped(w[0], more);
      } else {
        ReadQuotedPlain(w[0], more);
      }
    }
  }

  /** Reading back a safe word. */
  lemma {:induction false} ReadSafe(w: string, rest: string)
    requires forall k :: 0 <= k < |w| ==> IsSafeChar(w[k])
    requires rest == [] || rest[0] == ' '
    ensures ReadBare(w + rest) == (w, rest)
  {
    if w != [] {
      assert (w + rest)[0] == w[0];
      assert (w + rest)[1..] == w[1..] + rest;
      ReadSafe(w[1..], rest);
      assert [w[0]] + w[1..] == w;
    } else {
      assert w + rest == rest;
    }
  }

  /** A safe word is read back bare. */
  lemma ReadSafeWord(w: string, rest: string)
    requires IsSafe(w)
    requires rest == [] || rest[0] == ' '
    ensures ReadWord(w + rest) == Some((w, rest))
  {
    ReadSafe(w, rest);
    assert (w + rest)[0] == w[0];
  }

  /** A word in double quotes is read back without them. */
  lemma ReadInQuotes(w: string, rest: string)
    requires ExpansionFree(w)
    ensures ReadWord("\"" + Escape(w) + "\"" + rest) == Some((w, rest))
  {
    var s := "\"" + Escape(w) + "\"" + rest;
    assert s[1..] == Escape(w) + "\"" + rest;
    ReadEscaped(w, rest);
  }

  /** A quoted word is read back as the word, whatever follows it, exactly
      when it is free of expansions; otherwise it is not read at all. */
  lemma ReadQuotedWord(w: string, rest: string)
    requires rest == [] || rest[0] == ' '
    ensures ExpansionFree(w) ==> ReadWord(QuoteForShell(w) + rest) == Some((w, rest))
    ensures !ExpansionFree(w) ==> ReadWord(QuoteForShell(w) + rest).None?
  {
    if !ExpansionFree(w) {
      assert !IsSafe(w) by {
        var k :| 0 <= k < |w| && (w[k] == '$' || w[k] == '`');
        assert !IsSafeChar(w[k]);
      }
      var s := "\"" + Escape(w) + "\"" + rest;
      assert s[1..] == Escape(w) + "\"" + rest;
      ReadEscapedExpansion(w, rest);
    } else if IsSafe(w) {
      ReadSafeWord(w, rest);
    } else {
      ReadInQuotes(w, rest);
    }
  }

  /** Quoting words and joining them with spaces can be undone exactly when
      no word holds an expansion. */
  lemma {:induction false} WordsOfQuoted(words: seq<string>)
    requires words != []
    ensures Words(JoinWith(QuoteAll(words), " ")) == Some(words) <==> AllExpansionFree(words)
  {
    var quoted := QuoteAll(words);
    var q := QuoteForShell(words[0]);
    assert quoted[0] == q;
    if |words| == 1 {
      ReadQuotedWord(words[0], "");
      assert q + "" == q;
      assert JoinWith(quoted, " ") == q;
      assert [words[0]] == words;
    } else {
      var more := JoinWith(quoted[1..], " ");
      assert quoted[1..] == QuoteAll(words[1..]);
      WordsOfQuoted(words[1..]);
      assert JoinWith(quoted, " ") == q + (" " + more);
      assert AllExpansionFree(words) <==> ExpansionFree(words[0]) && AllExpansionFree(words[1..]) by {
        forall k | 0 < k < |words| ensures words[k] == words[1..][k - 1] { }
      }
      ReadQuotedWord(words[0], " " + more);
      if ExpansionFree(words[0]) {
        WordsAfter(q, more, words[0]);
        assert [words[0]] + words[1..] == words;
        if Words(more).Some? {
          assert ([words[0]] + Words(more).value)[1..] == Words(more).value;
        }
      }
    }
  }

  /** A word read from the front of a line, followed by a space, is put in
      front of the words of the rest. */
  lemma WordsAfter(q: string, more: string, w: string)
    requires ReadWord(q + (" " + more)) == Some((w, " " + more))
    ensures Words(q + (" " + more)) == if Words(more).Some? then Some([w] + Words(more).value) else None
  {
    assert (" " + more)[1..] == more;
  }

  /** An argument such as `a$(id)` is shown in double quotes, where a shell
      would run `id` instead of passing the text on. */
  lemma DisplayOfCommandSubstitution()
    ensures Words(FormatCommandForDisplay(BinName, ["a$(id)"])) != Some([BinName, "a$(id)"])
  {
    var words := [BinName, "a$(id)"];
    assert [BinName] + ["a$(id)"] == words;
    assert "a$(id)"[1] == '$';
    assert !AllExpansionFree(words) by {
      assert !ExpansionFree(words[1]);
    }
  }
}
