/** The request normaliser and the output-path extraction of the web
    downloader (`packages/web/lib/download.ts`). Running yt-dlp and ffmpeg,
    and the file system, are not modelled: the files that exist are given as
    a set, URL parsing as a `UrlParser`, and the process working directory
    as `cwd`. */
module Download {
  import opened Wrappers
  import opened Text
  import opened Paths
  import opened WebUrl

  /** A request as submitted: an absent field is `None`. */
  datatype DownloadRequest = DownloadRequest(url: string, filename: Option<string>, format: Option<string>)

  datatype NormalizedRequest = NormalizedRequest(url: string, filename: Option<string>, format: Option<string>)

  /** What a download run reports back. */
  datatype DownloadResult = DownloadResult(ok: bool, message: string, logs: seq<string>, outputPath: Option<string>)

  const DefaultFormat := "bestvideo*+bestaudio/best"
  const DefaultTemplate := "%(title)s.%(ext)s"

  /** The source sites: the two apex domains, their common subdomains and the
      link shortener. */
  const AllowedHosts: set<string> :=
    {"x.com", "www.x.com", "twitter.com", "www.twitter.com", "mobile.twitter.com", "m.twitter.com", "t.co"}

  const UrlRequired := "请输入视频链接。"
  const UrlMalformed := "链接格式不正确，请使用 http(s) 开头的链接。"
  const HostUnsupported := "仅支持 x.com 或 twitter.com 的链接。"
  const FilenameEmpty := "文件名不能为空。"
  const FilenameHasPath := "文件名不能包含路径。"
  const FormatEmpty := "格式不能为空。"

  /** `parseUrl`: the parsed URL, provided its scheme is http or https. */
  function ParseUrl(parse: UrlParser, value: string): (r: Option<UrlParts>)
    ensures r.Some? <==> parse(value).Some? && IsHttpProtocol(parse(value).value.protocol)
    ensures r.Some? ==> r == parse(value)
  {
    match parse(value)
    case None => None
    case Some(u) => if u.protocol != "http:" && u.protocol != "https:" then None else Some(u)
  }

  /** The filename check: a non-empty filename must trim to a bare name. */
  predicate FilenameAcceptable(filename: Option<string>) {
    Truthy(filename) ==> Trim(filename.value) != "" && '/' !in Trim(filename.value)
  }

  /** The format check: a present format must not be blank. */
  predicate FormatAcceptable(format: Option<string>) {
    format.Some? ==> Trim(format.value) != ""
  }

  /** The URL checks: not blank, http(s), and an allowed host. */
  predicate UrlAcceptable(parse: UrlParser, rawUrl: string) {
    var url := Trim(rawUrl);
    url != "" && ParseUrl(parse, url).Some? && ParseUrl(parse, url).value.hostname in AllowedHosts
  }

  /** `normalizeDownloadRequest`: checks, in this order, a URL that is not
      blank, an http(s) URL, an allowed host, a bare filename and a non-blank
      format; the first failure decides the message. */
  function NormalizeDownloadRequest(request: DownloadRequest, parse: UrlParser): (r: Result<NormalizedRequest, string>)
    ensures AllWhitespace(request.url) <==> r == Err(UrlRequired)
    ensures r == Err(UrlMalformed) <==>
              !AllWhitespace(request.url) && ParseUrl(parse, Trim(request.url)).None?
    ensures r == Err(HostUnsupported) <==>
              !AllWhitespace(request.url) && ParseUrl(parse, Trim(request.url)).Some?
              && !UrlAcceptable(parse, request.url)
    ensures r == Err(FilenameEmpty) <==>
              UrlAcceptable(parse, request.url) && Truthy(request.filename)
              && AllWhitespace(request.filename.value)
    ensures r == Err(FilenameHasPath) <==>
              UrlAcceptable(parse, request.url) && Truthy(request.filename)
              && !AllWhitespace(request.filename.value) && '/' in Trim(request.filename.value)
    ensures r == Err(FormatEmpty) <==>
              UrlAcceptable(parse, request.url) && FilenameAcceptable(request.filename)
              && !FormatAcceptable(request.format)
    ensures r.Ok? <==>
              UrlAcceptable(parse, request.url) && FilenameAcceptable(request.filename)
              && FormatAcceptable(request.format)
    ensures r.Ok? ==> r.value.url == Trim(request.url)
                      && parse(r.value.url).Some?
                      && IsHttpProtocol(parse(r.value.url).value.protocol)
                      && parse(r.value.url).value.hostname in AllowedHosts
    ensures r.Ok? ==> r.value.filename == (if Truthy(request.filename) then Some(Trim(request.filename.value)) else None)
    ensures r.Ok? && r.value.filename.Some? ==> r.value.filename.value != "" && '/' !in r.value.filename.value
    ensures r.Ok? ==> r.value.format == (if Truthy(request.format) then Some(Trim(request.format.value)) else None)
    ensures r.Ok? && r.value.format.Some? ==> r.value.format.value != ""
  {
    var url := Trim(request.url);
    if |url| == 0 then Err(UrlRequired)
    else
      match ParseUrl(parse, url)
      case None => Err(UrlMalformed)
      case Some(parsed) =>
        if parsed.hostname !in AllowedHosts then Err(HostUnsupported)
        else if Truthy(request.filename) && |Trim(request.filename.value)| == 0 then Err(FilenameEmpty)
        else if Truthy(request.filename)
                && (BasenameFixedPoint(Trim(request.filename.value));
                    Basename(Trim(request.filename.value)) != Trim(request.filename.value))
        then Err(FilenameHasPath)
        else if request.format.Some? && |Trim(request.format.value)| == 0 then Err(FormatEmpty)
        else
          Ok(NormalizedRequest(
            url,
            if Truthy(request.filename) then Some(Trim(request.filename.value)) else None,
            if Truthy(request.format) then Some(Trim(request.format.value)) else None))
  }

  /** The request a normalized request stands for. */
  function AsRequest(n: NormalizedRequest): DownloadRequest {
    DownloadRequest(n.url, n.filename, n.format)
  }

  /** Normalizing again what normalization produced gives it back unchanged:
      a download run that re-checks a stored request accepts it as is. */
  lemma NormalizeIdempotent(request: DownloadRequest, parse: UrlParser)
    requires NormalizeDownloadRequest(request, parse).Ok?
    ensures var n := NormalizeDownloadRequest(request, parse).value;
            NormalizeDownloadRequest(AsRequest(n), parse) == Ok(n)
  {
    var n := NormalizeDownloadRequest(request, parse).value;
    assert Trim(n.url) == n.url by { TrimIdempotent(request.url); }
    assert Truthy(n.filename) ==> Trim(n.filename.value) == n.filename.value by {
      if Truthy(request.filename) { TrimIdempotent(request.filename.value); }
    }
    assert Truthy(n.format) ==> Trim(n.format.value) == n.format.value by {
      if Truthy(request.format) { TrimIdempotent(request.format.value); }
    }
    assert UrlAcceptable(parse, n.url);
    assert FilenameAcceptable(n.filename);
    assert FormatAcceptable(n.format);
  }

  /** The filename check compares a name with its basename only, and `..`
      holds no separator: a request whose filename is `..` is accepted with
      that filename, once its URL and format pass. */
  lemma DotDotFilenameAccepted(request: DownloadRequest, parse: UrlParser)
    requires request.filename == Some("..")
    requires UrlAcceptable(parse, request.url) && FormatAcceptable(request.format)
    ensures NormalizeDownloadRequest(request, parse).Ok?
    ensures NormalizeDownloadRequest(request, parse).value.filename == Some("..")
  {
    DotDotTrimmed(request.filename);
    var r := NormalizeDownloadRequest(request, parse);
    assert r.Ok?;
  }

  /** The filename `..` passes the filename check and trims to itself. */
  lemma DotDotTrimmed(filename: Option<string>)
    requires filename == Some("..")
    ensures FilenameAcceptable(filename) && Truthy(filename)
    ensures Trim(filename.value) == ".."
  {
    TrimStartOfTrimmed("..");
    TrimEndOfTrimmed("..");
  }

  /** `buildOutputTemplate` of the web downloader: the output directory joined
      with the filename, or with yt-dlp's title-and-extension template. With
      no filename, or a filename that is a plain name, the template is the
      normalized output directory followed by exactly one more segment. */
  function BuildOutputTemplate(outputDir: string, filename: Option<string>): (t: string)
    ensures !Truthy(filename) || IsName(filename.value) ==>
              var last := if Truthy(filename) then filename.value else DefaultTemplate;
              t == Render(IsAbsolute(outputDir),
                          NormalizeSegments(Segments(outputDir), !IsAbsolute(outputDir)) + [last])
  {
    if Truthy(filename) then
      if IsName(filename.value) then (JoinName(outputDir, filename.value); Join(outputDir, filename.value))
      else Join(outputDir, filename.value)
    else (JoinName(outputDir, DefaultTemplate); Join(outputDir, DefaultTemplate))
  }

  /** The first pass of `stripQuotes` for one quote character: one leading
      and one trailing occurrence of `q` go, a lone `q` counting once. */
  function StripOne(s: string, q: char): (r: string)
    ensures |s| - 2 <= |r| <= |s|
    ensures var i := if |s| > 0 && s[0] == q then 1 else 0;
            i + |r| <= |s| && r == s[i..i + |r|]
            && (i + |r| < |s| <==> |s| > i && s[|s| - 1] == q)
            && i + |r| >= |s| - 1
  {
    var i := if |s| > 0 && s[0] == q then 1 else 0;
    var j := if |s| > i && s[|s| - 1] == q then |s| - 1 else |s|;
    s[i..j]
  }

  /** The filenames `..` and `.` pass for names but add no segment: `..`
      makes the template the output directory's parent, and `.` the output
      directory itself. */
  lemma DotFilenameTemplates()
    ensures BuildOutputTemplate("/d", Some("..")) == "/"
    ensures BuildOutputTemplate("/d", Some(".")) == "/d"
  {
    JoinDotDot();
    JoinDot();
  }

  /** `stripQuotes`: double quotes first, then single quotes. What goes is at
      most two characters at each end, each of them a quote. */
  function StripQuotes(s: string): (r: string)
    ensures |s| - 4 <= |r| <= |s|
    ensures exists start :: QuotesAround(s, r, start, 2)
  {
    var once := StripOne(s, '"');
    var r := StripOne(once, '\'');
    StripOneAround(s, '"');
    StripOneAround(once, '\'');
    var i := if |s| > 0 && s[0] == '"' then 1 else 0;
    var i2 := if |once| > 0 && once[0] == '\'' then 1 else 0;
    AroundTwice(s, once, r, i, i2);
    r
  }

  /** `r` is `s` less `start` characters in front and some behind, at most `n`
      at each end, all of them quotes. */
  predicate QuotesAround(s: string, r: string, start: nat, n: nat) {
    && start <= n && start + |r| <= |s| <= start + |r| + n
    && s[start..start + |r|] == r
    && (forall k :: 0 <= k < start ==> IsQuote(s[k]))
    && (forall k :: start + |r| <= k < |s| ==> IsQuote(s[k]))
  }

  predicate IsQuote(c: char) {
    c == '"' || c == '\''
  }

  /** One pass removes at most one quote at each end. */
  lemma StripOneAround(s: string, q: char)
    requires IsQuote(q)
    ensures QuotesAround(s, StripOne(s, q), if |s| > 0 && s[0] == q then 1 else 0, 1)
  {
  }

  /** Two passes, one inside the other, remove at most two quotes at each
      end. */
  lemma AroundTwice(s: string, m: string, r: string, i: nat, j: nat)
    requires QuotesAround(s, m, i, 1) && QuotesAround(m, r, j, 1)
    ensures QuotesAround(s, r, i + j, 2)
  {
    assert s[i..i + |m|] == m && m[j..j + |r|] == r;
    assert forall k :: 0 <= k < |r| ==> r[k] == m[j + k] == s[i + j + k];
    forall k | i <= k < i + j ensures IsQuote(s[k]) {
      assert s[i..i + |m|][k - i] == s[k];
    }
    forall k | i + j + |r| <= k < i + |m| ensures IsQuote(s[k]) {
      assert s[i..i + |m|][k - i] == s[k];
    }
  }

  /** A string that neither starts nor ends with a quote is left alone. */
  lemma StripQuotesUnquoted(s: string)
    requires s != [] ==> s[0] != '"' && s[0] != '\'' && s[|s| - 1] != '"' && s[|s| - 1] != '\''
    ensures StripQuotes(s) == s
  {
  }

  /** A text in one pair of double or single quotes loses the pair. */
  lemma StripQuotesQuoted(s: string, q: char)
    requires IsQuote(q)
    requires s != [] ==> s[0] != '"' && s[0] != '\'' && s[|s| - 1] != '"' && s[|s| - 1] != '\''
    ensures StripQuotes([q] + s + [q]) == s
  {
    var t := [q] + s + [q];
    assert t[1..|t| - 1] == s;
    if q == '\'' {
      assert StripOne(t, '"') == t;
    }
  }

  /** Whether the lower-case pattern `pat` occurs at position `i` of `s`,
      ignoring the case of ASCII letters. */
  predicate MatchesAt(s: string, pat: string, i: nat) {
    i + |pat| <= |s| && LowerAsciiString(s[i..i + |pat|]) == pat
  }

  /** Position of the first case-insensitive (ASCII) occurrence of the
      lower-case pattern `pat` in `s`. */
  function FindIgnoringCase(s: string, pat: string): (r: Option<nat>)
    ensures r.Some? ==> MatchesAt(s, pat, r.value)
    ensures r.Some? ==> forall i: nat :: i < r.value ==> !MatchesAt(s, pat, i)
    ensures r.None? ==> forall i: nat :: !MatchesAt(s, pat, i)
    decreases |s|
  {
    if |s| < |pat| then None
    else if LowerAsciiString(s[..|pat|]) == pat then Some(0)
    else
      assert s[0..|pat|] == s[..|pat|];
      ShiftMatches(s, pat);
      match FindIgnoringCase(s[1..], pat)
      case None => None
      case Some(k) => Some(k + 1)
  }

  lemma ShiftMatches(s: string, pat: string)
    requires s != []
    ensures forall i: nat :: MatchesAt(s, pat, i + 1) == MatchesAt(s[1..], pat, i)
    ensures forall i: nat :: i > 0 ==> MatchesAt(s, pat, i) == MatchesAt(s[1..], pat, i - 1)
  {
    forall i: nat ensures MatchesAt(s, pat, i + 1) == MatchesAt(s[1..], pat, i) {
      if i + 1 + |pat| <= |s| {
        var t := s[1..];
        assert forall m :: i + 1 <= m < i + 1 + |pat| ==> s[m] == t[m - 1];
        assert s[i + 1..i + 1 + |pat|] == t[i..i + |pat|];
      }
    }
    forall i: nat | i > 0 ensures MatchesAt(s, pat, i) == MatchesAt(s[1..], pat, i - 1) {
      assert i == (i - 1) + 1;
    }
  }

  /** Number of leading whitespace characters. */
  function LeadingWhitespace(s: string): (n: nat)
    ensures n <= |s| && AllWhitespace(s[..n]) && (n < |s| ==> !IsWhitespace(s[n]))
  {
    if s != [] && IsWhitespace(s[0]) then
      var n := 1 + LeadingWhitespace(s[1..]);
      assert s[..n] == [s[0]] + s[1..][..n - 1];
      n
    else 0
  }

  const DestinationTag := "destination:"
  const MergingTag := "merging formats into"

  /** What `\s*(.+)$` captures of `rest`: all of it after the leading
      whitespace, or, when it is all whitespace, its last character. */
  predicate GreedyCapture(rest: string, c: string) {
    && c != "" && |c| <= |rest|
    && rest[|rest| - |c|..] == c
    && AllWhitespace(rest[..|rest| - |c|])
    && (IsWhitespace(c[0]) ==> |c| == 1)
  }

  /** The capture of `\s*(.+)$` on what follows the tag; nothing when
      nothing follows. */
  function GreedyTail(rest: string): (r: Option<string>)
    ensures r.Some? <==> rest != ""
    ensures r.Some? ==> GreedyCapture(rest, r.value)
  {
    var ws := LeadingWhitespace(rest);
    if rest == "" then None
    else if ws == |rest| then
      assert rest[..|rest| - 1] == rest[..ws][..|rest| - 1];
      Some(rest[|rest| - 1..])
    else
      assert |rest| - |rest[ws..]| == ws;
      Some(rest[ws..])
  }

  /** The capture of `/Destination:\s*(.+)$/i` in a line, when it matches:
      the first "destination:" in any case must have something after it. */
  function DestinationCapture(line: string): (r: Option<string>)
    ensures var at := FindIgnoringCase(line, DestinationTag);
            && (r.Some? <==> at.Some? && at.value + |DestinationTag| < |line|)
            && (r.Some? ==> GreedyCapture(line[at.value + |DestinationTag|..], r.value))
  {
    match FindIgnoringCase(line, DestinationTag)
    case None => None
    case Some(i) => GreedyTail(line[i + |DestinationTag|..])
  }

  /** The lazy group of `\"?(.+?)\"?$` once the optional opening quote is
      taken: everything, less one closing quote when more than it remains. */
  function LazyUnquoted(s: string): (r: string)
    requires s != ""
    ensures r != "" && |r| <= |s| && s[..|r|] == r
    ensures |r| == |s| || (|r| == |s| - 1 && s[|s| - 1] == '"')
  {
    if |s| >= 2 && s[|s| - 1] == '"' then s[..|s| - 1] else s
  }

  /** `c` sits in `rest` from `start` on, after whitespace and at most one
      double quote, and before at most one double quote. */
  predicate InQuotes(rest: string, c: string, start: nat) {
    && start + |c| <= |rest| <= start + |c| + 1
    && rest[start..start + |c|] == c
    && (start + |c| < |rest| ==> rest[|rest| - 1] == '"')
    && (AllWhitespace(rest[..start]) || (start > 0 && rest[start - 1] == '"' && AllWhitespace(rest[..start - 1])))
  }

  /** What `\s*\"?(.+?)\"?$` may capture of `rest`: a non-empty part of
      it with only whitespace and an optional double quote before, and an
      optional double quote after. */
  predicate QuotedCapture(rest: string, c: string) {
    c != "" && exists start: nat :: start <= |rest| && InQuotes(rest, c, start)
  }

  /** The capture of `\s*\"?(.+?)\"?$` on what follows the tag; nothing when
      nothing follows. */
  function QuotedTail(rest: string): (r: Option<string>)
    ensures r.Some? <==> rest != ""
    ensures r.Some? ==> QuotedCapture(rest, r.value)
  {
    var ws := LeadingWhitespace(rest);
    var r1 := rest[ws..];
    if rest == "" then None
    else if r1 == "" then
      assert rest[..|rest| - 1] == rest[..ws][..|rest| - 1];
      assert InQuotes(rest, rest[|rest| - 1..], |rest| - 1);
      Some(rest[|rest| - 1..])
    else if r1[0] == '"' then
      if |r1| == 1 then
        assert InQuotes(rest, r1, ws);
        Some(r1)
      else
        var c := LazyUnquoted(r1[1..]);
        assert rest[ws + 1..ws + 1 + |c|] == c;
        assert rest[..ws + 1 - 1] == rest[..ws];
        assert InQuotes(rest, c, ws + 1);
        Some(c)
    else
      var c := LazyUnquoted(r1);
      assert rest[ws..ws + |c|] == c;
      assert InQuotes(rest, c, ws);
      Some(c)
  }

  /** The capture of `/Merging formats into\s*\"?(.+?)\"?$/i` in a line,
      when it matches: the first "merging formats into" in any case must
      have something after it. */
  function MergingCapture(line: string): (r: Option<string>)
    ensures var at := FindIgnoringCase(line, MergingTag);
            && (r.Some? <==> at.Some? && at.value + |MergingTag| < |line|)
            && (r.Some? ==> QuotedCapture(line[at.value + |MergingTag|..], r.value))
  {
    match FindIgnoringCase(line, MergingTag)
    case None => None
    case Some(i) => QuotedTail(line[i + |MergingTag|..])
  }

  /** `normalizeOutputLine`: `None` for a blank line; otherwise the path a
      yt-dlp "Destination:" or "Merging formats into" line names, or the
      line itself, with its quotes stripped. */
  function NormalizeOutputLine(line: string): (r: Option<string>)
    ensures r.None? <==> AllWhitespace(line)
  {
    var trimmed := Trim(line);
    if trimmed == "" then None
    else
      match DestinationCapture(trimmed)
      case Some(c) => Some(StripQuotes(Trim(c)))
      case None =>
        match MergingCapture(trimmed)
        case Some(c) => Some(StripQuotes(Trim(c)))
        case None => Some(StripQuotes(trimmed))
  }

  /** A line that is just a path, as `--print after_move:filepath` prints it,
      comes back unchanged. */
  lemma NormalizePlainPathLine(p: string)
    requires p != "" && !IsWhitespace(p[0]) && !IsWhitespace(p[|p| - 1])
    requires p[0] != '"' && p[0] != '\'' && p[|p| - 1] != '"' && p[|p| - 1] != '\''
    requires FindIgnoringCase(p, "destination:").None?
    requires FindIgnoringCase(p, "merging formats into").None?
    ensures NormalizeOutputLine(p) == Some(p)
  {
    TrimStartOfTrimmed(p);
    TrimEndOfTrimmed(p);
    StripQuotesUnquoted(p);
  }

  /** No proper prefix of `pat` is also a suffix of it, so no occurrence of
      `pat` can begin inside another. */
  predicate NoBorder(pat: string) {
    forall d :: 0 < d < |pat| ==> pat[..d] != pat[|pat| - d..]
  }

  lemma DestinationTagNoBorder()
    ensures NoBorder(DestinationTag)
  {
    forall d | 0 < d < |DestinationTag| ensures DestinationTag[..d] != DestinationTag[|DestinationTag| - d..] {
      assert DestinationTag[..d][d - 1] != ':';
      assert DestinationTag[|DestinationTag| - d..][d - 1] == ':';
    }
  }

  lemma MergingTagNoBorder()
    ensures NoBorder(MergingTag)
  {
    forall d | 0 < d < |MergingTag| ensures MergingTag[..d] != MergingTag[|MergingTag| - d..] {
      if d == 9 {
        assert MergingTag[..d][8] == 'f';
        assert MergingTag[|MergingTag| - d..][8] == 'o';
      } else {
        assert MergingTag[..d][0] == 'm';
        assert MergingTag[|MergingTag| - d..][0] != 'm';
      }
    }
  }

  /** An occurrence of a borderless pattern that ends inside `tag`, where the
      pattern is written, would make a border. */
  lemma NoMatchAcross(line: string, pre: string, tag: string, pat: string, i: nat)
    requires LowerAsciiString(tag) == pat && NoBorder(pat)
    requires |pre| + |tag| <= |line| && line[|pre|..|pre| + |tag|] == tag
    requires i < |pre| < i + |pat|
    ensures !MatchesAt(line, pat, i)
  {
    var d := i + |pat| - |pre|;
    assert pat[..d] != pat[|pat| - d..];
    var k :| 0 <= k < d && pat[..d][k] != pat[|pat| - d..][k];
    assert line[|pre| + k] == tag[k];
    if i + |pat| <= |line| {
      assert LowerAsciiString(line[i..i + |pat|])[|pat| - d + k] == LowerAscii(tag[k]);
    }
  }

  /** A pattern without a border, written in any case right after a text
      where it does not occur, is found first where it is written. */
  lemma FirstMatchAt(pre: string, tag: string, rest: string, pat: string)
    requires LowerAsciiString(tag) == pat && NoBorder(pat)
    requires FindIgnoringCase(pre, pat).None?
    ensures FindIgnoringCase(pre + tag + rest, pat) == Some(|pre|)
  {
    var line := pre + tag + rest;
    assert line[|pre|..|pre| + |pat|] == tag;
    assert MatchesAt(line, pat, |pre|);
    forall i: nat | i < |pre| ensures !MatchesAt(line, pat, i) {
      if i + |pat| <= |pre| {
        assert line[i..i + |pat|] == pre[i..i + |pat|];
        assert !MatchesAt(pre, pat, i);
      } else {
        NoMatchAcross(line, pre, tag, pat, i);
      }
    }
  }

  lemma {:induction false} LeadingWhitespaceOf(ws: string, p: string)
    requires AllWhitespace(ws) && p != "" && !IsWhitespace(p[0])
    ensures LeadingWhitespace(ws + p) == |ws|
  {
    if ws != [] {
      assert (ws + p)[1..] == ws[1..] + p;
      LeadingWhitespaceOf(ws[1..], p);
    } else {
      assert ws + p == p;
    }
  }

  /** A line that starts and ends with a non-blank character is its own
      trim. */
  lemma TrimmedLine(line: string)
    requires line != "" && !IsWhitespace(line[0]) && !IsWhitespace(line[|line| - 1])
    ensures Trim(line) == line
  {
    TrimStartOfTrimmed(line);
    TrimEndOfTrimmed(line);
  }

  /** After whitespace, a path is captured whole. */
  lemma GreedyTailOf(ws: string, p: string)
    requires AllWhitespace(ws) && p != "" && !IsWhitespace(p[0])
    ensures GreedyTail(ws + p) == Some(p)
  {
    LeadingWhitespaceOf(ws, p);
    assert (ws + p)[|ws|..] == p;
  }

  /** A text in double quotes, as yt-dlp writes the merged file's path. */
  function InDoubleQuotes(p: string): string {
    "\"" + p + "\""
  }

  /** After whitespace, a path in double quotes is captured without them. */
  lemma QuotedTailOf(ws: string, p: string)
    requires AllWhitespace(ws) && p != ""
    ensures QuotedTail(ws + InDoubleQuotes(p)) == Some(p)
  {
    var quoted := InDoubleQuotes(p);
    LeadingWhitespaceOf(ws, quoted);
    assert (ws + quoted)[|ws|..] == quoted;
    assert quoted[1..] == p + "\"";
    assert (p + "\"")[..|p|] == p;
  }

  /** The tag written after a text without it is where the capture starts. */
  lemma DestinationCaptureAfter(pre: string, tag: string, rest: string)
    requires LowerAsciiString(tag) == DestinationTag
    requires FindIgnoringCase(pre, DestinationTag).None?
    ensures DestinationCapture(pre + tag + rest) == GreedyTail(rest)
  {
    DestinationTagNoBorder();
    FirstMatchAt(pre, tag, rest, DestinationTag);
    assert (pre + tag + rest)[|pre| + |DestinationTag|..] == rest;
  }

  lemma MergingCaptureAfter(pre: string, tag: string, rest: string)
    requires LowerAsciiString(tag) == MergingTag
    requires FindIgnoringCase(pre, MergingTag).None?
    ensures MergingCapture(pre + tag + rest) == QuotedTail(rest)
  {
    MergingTagNoBorder();
    FirstMatchAt(pre, tag, rest, MergingTag);
    assert (pre + tag + rest)[|pre| + |MergingTag|..] == rest;
  }

  /** A line that starts with `pre` and `tag` starts with a non-blank
      character. */
  lemma TagLineStart(pre: string, tag: string, rest: string, pat: string)
    requires LowerAsciiString(tag) == pat && pat != "" && !IsWhitespace(pat[0])
    requires pre == "" || !IsWhitespace(pre[0])
    ensures !IsWhitespace((pre + tag + rest)[0])
  {
    assert LowerAscii(tag[0]) == pat[0];
  }

  /** A yt-dlp "Destination:" line, such as `[download] Destination: clip.mp4`,
      yields the path after the tag and its whitespace, quotes stripped. */
  lemma DestinationLine(pre: string, tag: string, ws: string, p: string)
    requires LowerAsciiString(tag) == DestinationTag
    requires FindIgnoringCase(pre, DestinationTag).None?
    requires pre == "" || !IsWhitespace(pre[0])
    requires AllWhitespace(ws)
    requires p != "" && !IsWhitespace(p[0]) && !IsWhitespace(p[|p| - 1])
    ensures NormalizeOutputLine(pre + tag + ws + p) == Some(StripQuotes(p))
  {
    var line := pre + tag + (ws + p);
    assert pre + tag + ws + p == line;
    TagLineStart(pre, tag, ws + p, DestinationTag);
    TrimmedLine(line);
    DestinationCaptureAfter(pre, tag, ws + p);
    GreedyTailOf(ws, p);
    TrimmedLine(p);
  }

  /** A yt-dlp "Merging formats into" line, such as
      `[Merger] Merging formats into "clip.mp4"`, captures the path inside
      the double quotes. */
  lemma MergingLine(pre: string, tag: string, ws: string, p: string)
    requires LowerAsciiString(tag) == MergingTag
    requires FindIgnoringCase(pre, MergingTag).None?
    requires AllWhitespace(ws) && p != ""
    ensures MergingCapture(pre + tag + (ws + InDoubleQuotes(p))) == Some(p)
  {
    MergingCaptureAfter(pre, tag, ws + InDoubleQuotes(p));
    QuotedTailOf(ws, p);
  }

  /** A line without blanks at its ends that is no "Destination:" line
      yields its merge capture, trimmed and unquoted. */
  lemma NormalizeMerging(line: string, c: string)
    requires line != "" && !IsWhitespace(line[0]) && !IsWhitespace(line[|line| - 1])
    requires DestinationCapture(line).None? && MergingCapture(line) == Some(c)
    ensures NormalizeOutputLine(line) == Some(StripQuotes(Trim(c)))
  {
    TrimmedLine(line);
  }


  /** The lines of yt-dlp's standard output, trimmed, blank ones dropped.
      Splitting on LF and trimming gives the same lines as splitting on an
      optional CR before LF and trimming, since CR is whitespace. */
  function OutputLines(stdout: string): seq<string> {
    NonBlank(SplitOn(stdout, '\n'))
  }

  /** Every output line is non-blank and already trimmed. */
  lemma OutputLinesTrimmed(stdout: string)
    ensures var lines := OutputLines(stdout);
            forall k :: 0 <= k < |lines| ==> lines[k] != "" && Trim(lines[k]) == lines[k]
  {
    NonBlankTrimmed(SplitOn(stdout, '\n'));
  }

  /** The trimmed lines, in order, less the blank ones. */
  function NonBlank(raw: seq<string>): (lines: seq<string>)
    ensures |lines| <= |raw|
  {
    if raw == [] then []
    else
      var init := NonBlank(raw[..|raw| - 1]);
      var last := Trim(raw[|raw| - 1]);
      if last == "" then init else init + [last]
  }

  /** Every line kept is non-blank and already trimmed. */
  lemma {:induction false} NonBlankTrimmed(raw: seq<string>)
    ensures forall k :: 0 <= k < |NonBlank(raw)| ==> NonBlank(raw)[k] != "" && Trim(NonBlank(raw)[k]) == NonBlank(raw)[k]
  {
    if raw != [] {
      var init := raw[..|raw| - 1];
      var last := Trim(raw[|raw| - 1]);
      NonBlankTrimmed(init);
      if last != "" {
        TrimIdempotent(raw[|raw| - 1]);
        var lines := NonBlank(init) + [last];
        assert NonBlank(raw) == lines;
        forall k | 0 <= k < |lines| ensures lines[k] != "" && Trim(lines[k]) == lines[k] {
          if k < |NonBlank(init)| {
            assert lines[k] == NonBlank(init)[k];
          }
        }
      }
    }
  }

  /** One raw line gives its trim, or nothing when it is blank. */
  lemma NonBlankOne(line: string)
    ensures NonBlank([line]) == if AllWhitespace(line) then [] else [Trim(line)]
  {
    assert [line][..0] == [];
  }

  /** Dropping blank lines works line by line: the lines of two parts are
      the lines of the first followed by those of the second. */
  lemma {:induction false} NonBlankAppend(a: seq<string>, b: seq<string>)
    ensures NonBlank(a + b) == NonBlank(a) + NonBlank(b)
  {
    if b == [] {
      assert a + b == a;
    } else {
      var init := b[..|b| - 1];
      assert (a + b)[..|a + b| - 1] == a + init;
      assert (a + b)[|a + b| - 1] == b[|b| - 1];
      NonBlankAppend(a, init);
    }
  }

  lemma NoOutputLines()
    ensures OutputLines("") == []
  {
    assert SplitOn("", '\n') == [""];
  }

  /** `path.resolve(outputDir)` with a separator at its end: the string every
      accepted output path must start with. */
  function OutputPrefix(cwd: string, outputDir: string): (prefix: string)
    ensures EndsWith(prefix, "/")
  {
    var base := Resolve(cwd, outputDir);
    if base != "" && base[|base| - 1] == '/' then base else base + "/"
  }

  /** The path a line proposes: the normalized line, taken as it is when
      absolute and joined to the output directory when relative. */
  function Candidate(line: string, base: string): (r: Option<string>)
    ensures r.Some? <==> NormalizeOutputLine(line).Some? && NormalizeOutputLine(line).value != ""
    ensures r.Some? && IsAbsolute(NormalizeOutputLine(line).value) ==> r.value == NormalizeOutputLine(line).value
    ensures r.Some? && IsAbsolute(base) ==> IsAbsolute(r.value)
  {
    match NormalizeOutputLine(line)
    case None => None
    case Some(c) =>
      if c == "" then None
      else if IsAbsolute(c) then Some(c)
      else (JoinAbsolute(base, c); Some(Join(base, c)))
  }

  /** The guard on a proposed path: it starts with the prefix and names an
      existing file. */
  predicate Accepted(resolved: string, prefix: string, files: set<string>) {
    StartsWith(resolved, prefix) && resolved in files
  }

  /** The path a line yields when its candidate passes the guard. */
  function AcceptedPath(line: string, base: string, prefix: string, files: set<string>): (r: Option<string>)
    ensures r.Some? ==> Accepted(r.value, prefix, files) && r == Candidate(line, base)
  {
    match Candidate(line, base)
    case None => None
    case Some(p) => if Accepted(p, prefix, files) then Some(p) else None
  }

  /** What each line of the output yields, line by line. */
  function Outcomes(lines: seq<string>, base: string, prefix: string, files: set<string>): (os: seq<Option<string>>)
    ensures |os| == |lines|
    ensures forall k :: 0 <= k < |lines| ==> os[k] == AcceptedPath(lines[k], base, prefix, files)
  {
    seq(|lines|, k requires 0 <= k < |lines| => AcceptedPath(lines[k], base, prefix, files))
  }

  /** The last value that is present, scanning from the end. */
  function LastPresent(os: seq<Option<string>>): Option<string> {
    if os == [] then None
    else if os[|os| - 1].Some? then os[|os| - 1]
    else LastPresent(os[..|os| - 1])
  }

  /** `LastPresent` finds nothing exactly when nothing is present, and what it
      finds is the value at the last present position. */
  lemma {:induction false} LastPresentIsLast(os: seq<Option<string>>)
    ensures LastPresent(os).None? <==> forall k :: 0 <= k < |os| ==> os[k].None?
    ensures LastPresent(os).Some? ==>
              exists k :: 0 <= k < |os| && os[k] == LastPresent(os)
                          && forall j :: k < j < |os| ==> os[j].None?
  {
    if os != [] && os[|os| - 1].None? {
      var init := os[..|os| - 1];
      LastPresentIsLast(init);
      if LastPresent(init).Some? {
        var k :| 0 <= k < |init| && init[k] == LastPresent(init)
                 && forall j :: k < j < |init| ==> init[j].None?;
        assert os[k] == init[k];
      }
    }
  }

  /** The path `extractOutputPath` settles on: the candidate of the last line
      whose candidate passes the guard. */
  function LastAccepted(lines: seq<string>, base: string, prefix: string, files: set<string>): Option<string> {
    LastPresent(Outcomes(lines, base, prefix, files))
  }

  /** `LastAccepted` finds nothing exactly when no line's candidate passes the
      guard; otherwise it returns the candidate of the last line that passes. */
  lemma LastAcceptedIsLast(lines: seq<string>, base: string, prefix: string, files: set<string>)
    ensures var r := LastAccepted(lines, base, prefix, files);
            && (r.None? <==> forall k :: 0 <= k < |lines| ==> AcceptedPath(lines[k], base, prefix, files).None?)
            && (r.Some? ==> exists k :: 0 <= k < |lines| && r == Candidate(lines[k], base)
                                        && AcceptedPath(lines[k], base, prefix, files) == r
                                        && forall j :: k < j < |lines| ==> AcceptedPath(lines[j], base, prefix, files).None?)
  {
    var os := Outcomes(lines, base, prefix, files);
    LastPresentIsLast(os);
  }

  /** Scanning back over one more value: a present value is the last one
      present; an absent one leaves the search to the values before it. */
  lemma LastPresentStep(os: seq<Option<string>>, index: nat)
    requires 0 < index <= |os|
    ensures os[index - 1].Some? ==> LastPresent(os[..index]) == os[index - 1]
    ensures os[index - 1].None? ==> LastPresent(os[..index]) == LastPresent(os[..index - 1])
  {
    assert os[..index][..index - 1] == os[..index - 1];
  }

  /** One line of the scan: its candidate, resolved against the output
      directory, when that lies under the prefix and names an existing file. */
  method CheckLine(line: string, base: string, prefix: string, files: set<string>) returns (p: Option<string>)
    ensures p == AcceptedPath(line, base, prefix, files)
    ensures p.Some? ==> StartsWith(p.value, prefix) && p.value in files
  {
    var candidate := NormalizeOutputLine(line);
    if candidate.None? || candidate.value == "" {
      assert Candidate(line, base).None?;
      return None;
    }
    var c := candidate.value;
    var resolved := if IsAbsolute(c) then c else Join(base, c);
    assert Candidate(line, base) == Some(resolved);
    if !StartsWith(resolved, prefix) {
      assert !Accepted(resolved, prefix, files);
      return None;
    }
    if resolved in files {
      assert Accepted(resolved, prefix, files);
      return Some(resolved);
    }
    return None;
  }

  /** The guard on an absolute path line is a test on its text: the line is
      accepted exactly when it starts with the prefix and names an existing
      file, whatever `..` segments it holds. */
  lemma AbsoluteLineGuard(p: string, base: string, prefix: string, files: set<string>)
    requires IsAbsolute(p) && !IsWhitespace(p[|p| - 1])
    requires p[|p| - 1] != '"' && p[|p| - 1] != '\''
    requires FindIgnoringCase(p, "destination:").None?
    requires FindIgnoringCase(p, "merging formats into").None?
    ensures AcceptedPath(p, base, prefix, files)
            == if StartsWith(p, prefix) && p in files then Some(p) else None
  {
    NormalizePlainPathLine(p);
  }

  /** A line `/d/../x` under the output directory `/d` passes the guard when
      the file exists, though the path it names, `/x`, lies outside `/d`. */
  lemma AbsoluteEscapeAccepted()
    ensures AcceptedPath("/d/../x", "/d", "/d/", {"/d/../x"}) == Some("/d/../x")
    ensures Normalize("/d/../x") == "/x" && !StartsWith("/x", "/d/")
  {
    assert StartsWith("/d/../x", "/d/");
    AbsoluteLineGuard("/d/../x", "/d", "/d/", {"/d/../x"});
    EscapeNormalized();
  }

  /** `/d/../x` normalizes to `/x`. */
  lemma EscapeNormalized()
    ensures Normalize("/d/../x") == "/x"
  {
    EscapeSegments("/d/../x");
    EscapeSegmentsNormalized();
    assert JoinWith(["x"], "/") == "x";
    var p := "/d/../x";
    assert p[0] == '/' && p[|p| - 1] != '/';
  }

  /** The `..` of `/d/../x` cancels `d`. */
  lemma EscapeSegmentsNormalized()
    ensures NormalizeSegments(["", "d", "..", "x"], false) == ["x"]
  {
    var e: string := [];
    var segs: seq<string> := [e, "d", "..", "x"];
    assert segs[..3] == [e, "d", ".."];
    assert segs[..3][..2] == [e, "d"];
    assert segs[..3][..2][..1] == [e];
    assert [e][..0] == [];
    assert NormalizeSegments([e], false) == [];
    assert NormalizeSegments([e, "d"], false) == ["d"];
    assert NormalizeSegments([e, "d", ".."], false) == [];
  }

  /** The segments of `/d/../x`. */
  lemma EscapeSegments(p: string)
    requires p == "/d/../x"
    ensures Segments(p) == ["", "d", "..", "x"]
  {
    var t := "d/../x";
    assert p == ['/'] + t;
    SplitEscapeTail();
    PrependEmptySegment(t);
  }

  lemma PrependEmptySegment(t: string)
    requires SplitOn(t, '/') == ["d", "..", "x"]
    ensures SplitOn(['/'] + t, '/') == ["", "d", "..", "x"]
  {
    SplitLeading('/', t);
    var e: string := [];
    assert [e] + ["d", "..", "x"] == [e, "d", "..", "x"];
  }

  /** The segments of `d/../x`. */
  lemma SplitEscapeTail()
    ensures SplitOn("d/../x", '/') == ["d", "..", "x"]
  {
    assert "d/../x" == "d" + ['/'] + "../x";
    SplitAround("d", '/', "../x");
    SplitDotDotName();
    assert SplitOn("d", '/') == ["d"];
  }

  /** The segments of `../x`. */
  lemma SplitDotDotName()
    ensures SplitOn("../x", '/') == ["..", "x"]
  {
    assert "../x" == ".." + ['/'] + "x";
    SplitAround("..", '/', "x");
    assert SplitOn("x", '/') == ["x"];
    assert SplitOn("..", '/') == [".."];
  }

  /** `extractOutputPath`: scans the output lines from the last to the first
      and returns the first candidate that lies under the resolved output
      directory and names an existing file. */
  method ExtractOutputPath(stdout: string, outputDir: string, cwd: string, files: set<string>)
    returns (r: Option<string>)
    ensures r == LastAccepted(OutputLines(stdout), Resolve(cwd, outputDir), OutputPrefix(cwd, outputDir), files)
    ensures r.Some? ==> StartsWith(r.value, OutputPrefix(cwd, outputDir)) && r.value in files
    ensures stdout == "" ==> r.None?
  {
    if stdout == "" {
      NoOutputLines();
      return None;
    }
    var outputBase := Resolve(cwd, outputDir);
    var prefix := OutputPrefix(cwd, outputDir);
    var lines := OutputLines(stdout);
    ghost var os := Outcomes(lines, outputBase, prefix, files);
    var index := |lines|;
    assert os[..index] == os;
    while index > 0
      invariant 0 <= index <= |lines|
      invariant LastPresent(os[..index]) == LastPresent(os)
    {
      var found := CheckLine(lines[index - 1], outputBase, prefix, files);
      assert found == os[index - 1];
      LastPresentStep(os, index);
      if found.Some? {
        return found;
      }
      index := index - 1;
    }
    return None;
  }
}
