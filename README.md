# x-downloader, modelled in Dafny

x-downloader downloads videos from X (Twitter) with yt-dlp. It comes in two
forms. A command-line tool reads its options, builds a yt-dlp command line and
shows it to the user. A web application queues download requests in a SQLite
table and drains that queue one download at a time. This project models the
logic of both once input and output are taken away. It proves what that logic
promises.

| file | module | models |
|---|---|---|
| `wrappers.dfy` | `Wrappers` | `Option` and `Result` |
| `text.dfy` | `Text` | JavaScript's `trim`, `join` and `split` on a character, ASCII lower case |
| `paths.dfy` | `Paths` | the POSIX `path.join`, `path.resolve`, `path.basename` and `path.isAbsolute` of Node |
| `url.dfy` | `WebUrl` | what the system reads from a parsed URL: its protocol and host name |
| `download.ts` → `download.dfy` | `Download` | request normalization, the host allowlist, the output template, and the recovery of the downloaded file's path from yt-dlp's output |
| `queue.ts` → `queue.dfy` | `Queue` | the `downloads` table with its enqueue, claim and finalize operations, log truncation, the drain loop, and the flag protocol that allows only one drain loop at a time |
| `route.ts` → `listing.dfy` | `Listing` | `Number.parseInt`, the `limit` clamp of the listing endpoint, and the listing itself |
| `args.ts` → `cliargs.dfy` | `CliArgs` | what the command-line tool does with the values `parseArgs` reports |
| `yt-dlp.ts` → `ytdlp.dfy` | `YtDlp` | the yt-dlp argument list, shell quoting and the displayed command line |

The code's form decides each part's form in the model:

- The table and the queue flags are updated in place, so they are classes: `Queue.DownloadTable` and `Queue.QueueState`.
  - Their methods are specified by functions on rows (`NewRow`, `RequeuedRow`, `ClaimedRow`, `FinalizedRow`, `OldestQueued`).
  - The table's constraints are a preserved invariant: positive increasing ids and unique URLs.
- The drain loop `RunQueue` is a `while` loop whose measure is the number of queued rows. It takes the download and the clock as parameters.
- `extractOutputPath`, `parseCliArgs` and `buildYtDlpCommand` build their results step by step, so they are methods:
  - `ExtractOutputPath` scans the lines backwards.
  - `ParseCliArgs` pushes problems onto a list.
  - `BuildYtDlpCommand` pushes arguments.
- Each of these methods is tied to a specification function. For the yt-dlp arguments, the specification is a reader that parses the argument list the way yt-dlp does. The method is proved to produce arguments that this reader reads back as exactly the settings the options request.
- The displayed command line is read back by a reader of the two word forms the display uses: bare words of safe characters, and double-quoted words read by the POSIX backslash rules for double quotes. The line reads back as the program and its arguments exactly when no word holds `$` or a backquote. The reader refuses every unescaped `$` and backquote inside double quotes, a conservative approximation: a shell always expands a backquote, but expands `$` only when a name character, a digit, a special parameter, `{` or `(` follows it.

The external services are parameters of the model:

- **WHATWG URL parser:** a function `UrlParser` from a string to an optional `(protocol, hostname)`.
- **File existence check:** a set of existing files.
- **Clock:** a `now` parameter, or a `clock` function in the drain loop.
- **yt-dlp run:** a function from a request to a `DownloadResult`.
- **Home directory and working directory:** strings.

## Where the code is weaker than it may look

The model follows the code in these places:

- Re-queueing a failed row (web/lib/queue.ts:49-57) keeps its `started_at` and `finished_at`. It is a plain update, not a compare-and-set on `status`.
- Enqueueing looks the URL up, then inserts (web/lib/queue.ts:21-37). It is not an atomic upsert.
- `finalizeTask` stores the output path it is given. It does not check again that the path lies under the output directory.
- The output-path guard tests the text of the path. An absolute candidate is not normalized first, so `/d/../x` passes the guard for the directory `/d` (`Download.AbsoluteEscapeAccepted`).
- The filename check compares a name with its basename, so the filename `..` is accepted (`Download.DotDotFilenameAccepted`). The output template then names the parent of the output directory (`Download.DotFilenameTemplates`).
- The displayed command line escapes only backslashes and double quotes inside double quotes. An argument holding a backquote, or a `$` that starts an expansion, such as `a$(id)`, does not come back unchanged when the line is pasted into a shell (`YtDlp.DisplayOfCommandSubstitution`).

## Model

| member | source | states |
|---|---|---|
| `Download.ParseUrl` | packages/web/lib/download.ts:146-156 | a URL is kept exactly when it parses and its protocol is `http:` or `https:`; the parse is returned unchanged |
| `Download.NormalizeDownloadRequest` | packages/web/lib/download.ts:106-144 | the checks run in order and the first failure decides the message. A blank URL fails exactly with "请输入视频链接。". A URL that does not parse as http(s) fails with the malformed-link message. A host outside the seven allowed hosts fails with the host message. A non-empty filename that trims to blank fails with the empty-filename message. A filename that is not its own basename fails with the path message. A present format that is blank fails with the empty-format message. Each of these holds in both directions. On success the url is the trimmed input and its host is allowed; the filename and format are trimmed, or absent when not given; the filename is non-empty and holds no `/` |
| `Download.NormalizeIdempotent` | packages/web/lib/download.ts:106-144 | normalizing a normalized request again accepts it and returns it unchanged |
| `Download.BuildOutputTemplate` | packages/web/lib/download.ts:164-169 | with no filename, or a plain-name filename, the template is the normalized output directory followed by that name or by `%(title)s.%(ext)s` |
| `Download.DotFilenameTemplates` | packages/web/lib/download.ts:164-169 | for the output directory `/d`, the filename `..` gives the template `/`, its parent, and `.` gives `/d` itself |
| `Download.StripOne` | packages/web/lib/download.ts:271-273 | one pass of `replace(/^q\|q$/g, "")`: exactly one leading and one trailing `q` go, and a lone `q` goes once |
| `Download.StripQuotes` | packages/web/lib/download.ts:271-273 | the result is a contiguous infix of the value: at most two characters go from the front and at most two from the back, and every character removed is a quote |
| `Download.StripQuotesQuoted` | packages/web/lib/download.ts:271-273 | a value without quotes at its ends, put between two equal quotes, comes back as it was |
| `Download.StripQuotesUnquoted` | packages/web/lib/download.ts:271-273 | a string that neither starts nor ends with a quote is left unchanged |
| `Download.FindIgnoringCase` | packages/web/lib/download.ts:256-259 | the first position where a pattern matches case-insensitively, or `None` exactly when it matches nowhere |
| `Download.LeadingWhitespace` | packages/web/lib/download.ts:257-258 | the span matched by `\s*`: all whitespace and maximal |
| `Download.GreedyTail` | packages/web/lib/download.ts:257 | `\s*(.+)$` after the tag captures something exactly when text follows the tag; the capture is the text after the maximal leading whitespace, or its last character when the text is all whitespace |
| `Download.DestinationCapture` | packages/web/lib/download.ts:257 | the `Destination:` pattern matches exactly when the tag occurs, case-insensitively, with text after its first occurrence; the capture is the greedy tail of that text |
| `Download.LazyUnquoted` | packages/web/lib/download.ts:258 | `(.+?)\"?$` takes the whole text, or the whole text less one closing double quote; never less than one character |
| `Download.QuotedTail` | packages/web/lib/download.ts:258 | `\s*\"?(.+?)\"?$` after the tag captures something exactly when text follows the tag; the capture lies after the leading whitespace and at most one opening quote, and drops at most one closing quote |
| `Download.MergingCapture` | packages/web/lib/download.ts:258 | the `Merging formats into` pattern matches exactly when the tag occurs, case-insensitively, with text after its first occurrence; the capture is the quoted tail of that text |
| `Download.FirstMatchAt` | packages/web/lib/download.ts:256-259 | a tag written in any case, after a prefix that does not hold it, is found exactly at the end of that prefix |
| `Download.DestinationLine` | packages/web/lib/download.ts:250-269 | a line `<prefix>Destination: <path>` gives its path, with quotes stripped, whatever the case of the tag |
| `Download.MergingLine` | packages/web/lib/download.ts:258 | the merge pattern on `<prefix>Merging formats into "<path>"` captures the path without its quotes |
| `Download.NormalizeMerging` | packages/web/lib/download.ts:250-269 | a trimmed line without a `Destination:` match yields its merge capture, trimmed and with quotes stripped |
| `Download.NormalizeOutputLine` | packages/web/lib/download.ts:250-269 | `None` exactly when the line is blank |
| `Download.NormalizePlainPathLine` | packages/web/lib/download.ts:250-269 | a line that is just a path (no surrounding blanks or quotes, neither pattern present) is returned as it is |
| `Download.OutputLinesTrimmed` | packages/web/lib/download.ts:226-229 | every line of the output is non-empty and already trimmed |
| `Download.NonBlank` | packages/web/lib/download.ts:228-229 | trimming and dropping blank lines never gives more lines than it was given |
| `Download.NonBlankTrimmed` | packages/web/lib/download.ts:228-229 | every line kept is non-empty and equal to its own trim |
| `Download.NonBlankOne` | packages/web/lib/download.ts:228-229 | one line gives its trim, or nothing when it is blank |
| `Download.NonBlankAppend` | packages/web/lib/download.ts:228-229 | the lines kept from two parts are those of the first followed by those of the second, so the order of the split pieces is kept |
| `Download.NoOutputLines` | packages/web/lib/download.ts:220-229 | empty output has no lines |
| `Download.OutputPrefix` | packages/web/lib/download.ts:224-225 | the resolved output directory with a separator at its end |
| `Download.Candidate` | packages/web/lib/download.ts:232-237 | a line proposes a path exactly when it normalizes to a non-empty value; an absolute value is proposed as it is, and joining to an absolute output directory gives an absolute path |
| `Download.AcceptedPath` | packages/web/lib/download.ts:232-244 | a line yields its candidate path only when that path starts with the prefix and the file exists |
| `Download.Outcomes` | packages/web/lib/download.ts:231-245 | line by line, what each line of the output yields |
| `Download.CheckLine` | packages/web/lib/download.ts:232-244 | one line of the scan: its normalized candidate, taken as is when absolute and joined to the output directory otherwise, is returned exactly when it starts with the prefix and names an existing file |
| `Download.LastAcceptedIsLast` | packages/web/lib/download.ts:231-247 | nothing is found exactly when no line qualifies; otherwise the path comes from a qualifying line after which no line qualifies |
| `Download.DotDotFilenameAccepted` | packages/web/lib/download.ts:121-130 | a request whose filename is `..` is accepted with that filename once its URL and format pass, since `..` is its own basename |
| `Download.AbsoluteLineGuard` | packages/web/lib/download.ts:237-244 | an absolute path line is accepted exactly when its text starts with the prefix and the file exists; its `..` segments play no part |
| `Download.AbsoluteEscapeAccepted` | packages/web/lib/download.ts:237-244 | the line `/d/../x` passes the guard of the directory `/d` when that file exists, although it normalizes to `/x`, outside `/d` |
| `Download.ExtractOutputPath` | packages/web/lib/download.ts:219-248 | the backward scan returns the path of the last qualifying line. The path starts with `resolve(outputDir) + "/"` and the file exists. Empty output gives `None` |
| `Queue.FindUrl` | web/lib/queue.ts:21-23 | the row holding a URL, or `None` exactly when no row holds it |
| `Queue.FindId` | web/lib/queue.ts:171-181 | the row with an id, or `None` exactly when no row has it |
| `Queue.FindOwnId` | web/lib/db.ts:33-46 | in a valid table, a row's id finds that row |
| `Queue.FindOwnUrl` | web/lib/db.ts:33-46 | in a valid table, a row's URL finds that row (URLs are unique) |
| `Queue.NewRow` | web/lib/queue.ts:25-37 | the inserted row holds the URL, filename and format, is queued, has `created_at = updated_at = now`, and every other column is NULL |
| `Queue.RequeuedRow` | web/lib/queue.ts:48-57 | a re-queued row keeps its id, URL, `created_at`, `started_at` and `finished_at`. It becomes queued with `updated_at = now` and the new filename and format. Output path, error and logs are cleared |
| `Queue.ClaimedRow` | web/lib/queue.ts:153-155 | the claimed row is running with `started_at = updated_at = now` and nothing else changed |
| `Queue.FinalizedRow` | web/lib/queue.ts:165-182 | the row becomes done iff the result is ok, failed iff not. Error is NULL iff ok, and holds the message otherwise. The output path is the result's when ok and NULL otherwise. `finished_at = updated_at = now`, logs are truncated, and identity columns are kept |
| `Queue.TruncateLogs` | web/lib/queue.ts:193-204 | NULL exactly for no logs; otherwise a suffix of the joined logs whose length is the full length when that fits and exactly the limit otherwise |
| `Queue.TruncateLogsShort` | web/lib/queue.ts:198-200 | logs that fit are returned whole |
| `Queue.OldestQueued` | web/lib/queue.ts:145-147 | `None` exactly when no row is queued; otherwise a queued row with the smallest `created_at`, the first such one in rowid order |
| `Queue.QueuedCountUpdate` | web/lib/queue.ts:116-131 | replacing one row changes the number of queued rows by that row's share alone |
| `Queue.QueuedCountZero` | web/lib/queue.ts:116-131 | the number of queued rows is zero exactly when no row is queued |
| `Queue.InsertKeepsValid` | web/lib/db.ts:33-46 | inserting a row with the next id and an unseen URL keeps ids increasing and URLs unique |
| `Queue.UpdateKeepsValid` | web/lib/db.ts:33-46 | rewriting a row without touching its id or URL keeps the table valid |
| `Queue.InsertedRowFound` | web/lib/queue.ts:21-46 | after a URL's row is inserted, enqueueing it again finds that row, queued |
| `Queue.DownloadTable.constructor` | web/lib/db.ts:33-46 | a new table is empty and valid |
| `Queue.DownloadTable.EnqueueDownload` | web/lib/queue.ts:13-80 | a request that fails normalization is answered with 400 and its message, and the table is unchanged. An unseen URL gets exactly one new queued row with the next id and a 200 accept. A failed row is re-queued in place, keeping its id, with a 200 accept. A queued, running or done row is reported with its id and status, with 200 and no accept, and the table is unchanged. The table stays valid |
| `Queue.DownloadTable.EnqueueNormalized` | web/lib/queue.ts:19-79 | after normalization: an unseen URL gets one new queued row with the next id; a failed row is queued again in place; any other row is reported with its id and status and the table is unchanged |
| `Queue.DownloadTable.TakeNextTask` | web/lib/queue.ts:140-163 | with no queued row it returns `None` and changes nothing; otherwise it claims the oldest queued row, returns its id, URL, filename and format, and leaves every other row untouched |
| `Queue.DownloadTable.FinalizeTask` | web/lib/queue.ts:165-182 | only the row with the given id changes, and it becomes its finalized row; an unknown id changes nothing |
| `Queue.DownloadTable.RunQueue` | web/lib/queue.ts:116-131 | the drain ends with no queued row. Every row that was queued is done or failed exactly as the download of its own URL, filename and format decided, with the error, output path and truncated logs of that result. Every other row is untouched, and ids and URLs are kept |
| `Queue.DrainStepOutcome` | web/lib/queue.ts:118-129 | finishing the next queued row with the result of its own download keeps every finished row tied to its download and every still-queued row as it was |
| `Queue.DrainComplete` | web/lib/queue.ts:118-121 | a drain that finds no queued row has finished every row that was queued |
| `Queue.DrainStep` | web/lib/queue.ts:118-129 | one claim-download-finalize round keeps the drain's relation to the start and lowers the number of queued rows |
| `Queue.OnTrigger` | web/lib/queue.ts:82-91 | a loop starts exactly when none runs; afterwards one runs. While one runs, only `pending` is set; a new loop starts with `pending` cleared and the promise held |
| `Queue.OnLoopDone` | web/lib/queue.ts:91-99 | the end of a loop clears `running` and the promise, keeps `pending`, and schedules a restart exactly when `pending` is set |
| `Queue.QueueState.constructor` | web/lib/queue.ts:108-114 | the state starts with nothing running, pending or held |
| `Queue.QueueState.StartQueueProcessing` | web/lib/queue.ts:82-91 | while a loop runs, only `pending` is set and no loop starts; otherwise a loop starts with `running` set and `pending` cleared |
| `Queue.QueueState.LoopFinished` | web/lib/queue.ts:91-99 | the end of a loop clears `running` and `current`; a restart is scheduled exactly when `pending` is set |
| `Queue.OneLoopAtATime` | web/lib/queue.ts:82-100 | over any possible sequence of triggers and loop ends, at most one drain loop is running, and the held promise is present exactly while one runs |
| `Queue.TriggerNotLost` | web/lib/queue.ts:84-98 | a trigger that arrives while a loop runs, followed by more triggers, leaves a restart scheduled for when the loop ends |
| `Queue.RestartStartsLoop` | web/lib/queue.ts:91-98 | the restart scheduled at the end of a loop with `pending` set starts a new loop |
| `Listing.DigitRun` | web/app/api/downloads/route.ts:25 | the maximal run of leading decimal digits |
| `Listing.AfterSign` | web/app/api/downloads/route.ts:25 | `parseInt` skips at most one leading sign |
| `Listing.ParseInt10` | web/app/api/downloads/route.ts:25 | `NaN` exactly when no digit follows the optional sign after leading whitespace; a negative result needs a `-` |
| `Listing.LeadingNumber` | web/app/api/downloads/route.ts:25 | there is a leading number exactly when the string starts with a digit |
| `Listing.ParseUnsigned` | web/app/api/downloads/route.ts:25 | a string that starts with a digit is read as its leading number, without sign |
| `Listing.ParseDigits` | web/app/api/downloads/route.ts:25 | `parseInt` reads a non-empty string of digits as its decimal value |
| `Listing.Decimal` | web/app/api/downloads/route.ts:25 | a number's numeral is a non-empty string of digits |
| `Listing.DecimalValue` | web/app/api/downloads/route.ts:25 | a numeral's digits read back as the number |
| `Listing.DigitRunAll` | web/app/api/downloads/route.ts:25 | a string of digits is one digit run |
| `Listing.ParseDecimal` | web/app/api/downloads/route.ts:25 | `parseInt` of a number's numeral gives the number |
| `Listing.NormalizeLimit` | web/app/api/downloads/route.ts:20-31 | the limit always lies in 1..200. An absent or empty value gives 50. An unreadable or non-positive value gives 50. Otherwise the parsed value is capped at 200 |
| `Listing.NormalizeLimitNumeral` | web/app/api/downloads/route.ts:30 | a numeral between 1 and 200 is taken as it is |
| `Listing.InsertByAge` | web/app/api/downloads/route.ts:13 | inserting a row into a newest-first list keeps it newest first and adds exactly that row |
| `Listing.SortNewestFirst` | web/app/api/downloads/route.ts:13 | `ORDER BY created_at DESC` gives a newest-first permutation of the table |
| `Listing.TakeNewest` | web/app/api/downloads/route.ts:13 | the first `n` of a newest-first list stay ordered and come from the list |
| `Listing.TakeNewestRest` | web/app/api/downloads/route.ts:13 | what the first `n` of a newest-first list leave out is the rest of the list, and none of it is newer than any row kept |
| `Listing.ListDownloads` | web/app/api/downloads/route.ts:11-15 | the listing holds `limit` rows of the table, or all of them when the table is smaller, ordered newest first, each drawn from the table |
| `Listing.ListDownloadsNewest` | web/app/api/downloads/route.ts:11-15 | every row the listing leaves out is no newer than every row it holds |
| `CliArgs.IsHttpUrl` | src/args.ts:130-137 | a value counts as an http(s) URL only when the parser accepts it (the constructor does not throw) and its protocol is `http:` or `https:` |
| `CliArgs.NormalizeStringOption` | src/args.ts:122-128 | an absent value stays absent; a given one is trimmed, and is empty exactly when it was blank |
| `CliArgs.DefaultOutputDir` | src/args.ts:39 | the default output directory, `Downloads` under the home directory, is never blank |
| `CliArgs.DefaultOutputDirNotBlank` | src/args.ts:39 | joining the home directory with `Downloads` never gives a blank path |
| `CliArgs.IsBlank` | src/args.ts:70-78 | `trim().length === 0` holds exactly for all-whitespace strings |
| `CliArgs.ParseCliArgs` | src/args.ts:41-120 | the string options are trimmed and an absent output is the default directory. The flags default to false. `url` is the first positional, or absent when there is none. The problems are exactly `Problems`, in the order the checks run |
| `CliArgs.CheckValues` | src/args.ts:70-80 | a blank output directory, filename or format adds its problem, in that order |
| `CliArgs.PushIfBlank` | src/args.ts:74-80 | a problem is appended exactly when the value is given and blank |
| `CliArgs.CheckLink` | src/args.ts:88-98 | when the link is checked: none given, more than one, and a first one that is not an http(s) URL each add their problem |
| `CliArgs.TrimmedBlank` | src/args.ts:63-80 | a trimmed value is blank exactly when the value is |
| `CliArgs.NormalizedBlankProblems` | src/args.ts:63-80 | checking the trimmed values finds the same blank values as checking the values as given |
| `CliArgs.ProblemsOrdered` | src/args.ts:70-98 | each problem is reported at most once, in the order the checks run |
| `CliArgs.HelpSkipsLinkChecks` | src/args.ts:82-98 | with help or version set, no link problem is reported |
| `CliArgs.LinkCountProblems` | src/args.ts:88-97 | without help or version: the missing-link problem is reported iff no link is given, the one-link problem iff more than one is, and the link-format problem iff the first link is non-empty and not an http(s) URL |
| `CliArgs.OutputDirProblem` | src/args.ts:39-72 | with the default directory under the home directory, the empty-output-directory problem is reported exactly when `--output` is given blank |
| `YtDlp.BuildOutputTemplate` | src/yt-dlp.ts:78-87 | an absolute filename is the template as it is. A plain-name filename, or no filename, gives the normalized output directory followed by that name or by `%(title)s.%(ext)s` |
| `YtDlp.DotFilenameTemplates` | src/yt-dlp.ts:78-87 | for the output directory `/d`, the filename `..` gives the template `/`, its parent, and `.` gives `/d` itself |
| `YtDlp.ReadPiece` | src/yt-dlp.ts:22-48 | yt-dlp reading one pushed option, followed by more arguments, records that option and goes on |
| `YtDlp.ReadFlatten` | src/yt-dlp.ts:22-48 | reading the pushed options in order records each of them in turn |
| `YtDlp.Push` | src/yt-dlp.ts:22-48 | pushing one more option extends what the arguments read back as |
| `YtDlp.Closed` | src/yt-dlp.ts:22-50 | the arguments start with `--no-playlist`; closed by `-o <template> -- <url>`, they read back as the settings so far, that template and that URL |
| `YtDlp.BuildYtDlpCommand` | src/yt-dlp.ts:16-58 | it fails, with the missing-link message, exactly when there is no link. Otherwise the program is `yt-dlp` and the template is `buildOutputTemplate`'s. The display is the formatted command line. The arguments are `--no-playlist`, then the options pushed in the code's order (`Pieces`), then `-o`, the template, `--` and the URL. yt-dlp reads them back as exactly the requested settings: `-F` iff listing formats; `-f` with the given format, or with `bestvideo*+bestaudio/best` when neither a format nor `-F` is given; cookies, proxy and user agent iff given; quiet and no-warnings iff quiet |
| `YtDlp.Pieces` | src/yt-dlp.ts:24-48 | the options in the order the code pushes them: `-F` iff listing formats; `-f` with the format, or with the default unless listing; cookies, proxy and user agent iff given; `-q --no-warnings` iff quiet |
| `YtDlp.OptionArgs` | src/yt-dlp.ts:22-48 | the arguments before the output template are exactly `--no-playlist` followed by `Pieces`, and, once closed, read back as the requested settings |
| `YtDlp.PushFormat` | src/yt-dlp.ts:28-32 | the format push appends exactly the format's piece and records it |
| `YtDlp.PushStrings` | src/yt-dlp.ts:34-44 | the cookie, proxy and user-agent pushes append exactly their pieces, in that order, and record them |
| `YtDlp.PushIf` | src/yt-dlp.ts:24-48 | a conditional push appends its option exactly when the condition holds, adds that piece to the pushed ones, and records it |
| `YtDlp.PushGiven` | src/yt-dlp.ts:34-44 | a string option is appended with its flag exactly when it is non-empty, and that piece is added to the pushed ones |
| `YtDlp.RequestedSettings` | src/yt-dlp.ts:24-48 | the pushes, read in order, give the settings the options request |
| `YtDlp.EscapeInTwoPasses` | src/yt-dlp.ts:99 | replacing backslashes and then double quotes puts one backslash before each of them |
| `YtDlp.ReplaceAllAppend` | src/yt-dlp.ts:99 | `replaceAll` of a character works piece by piece |
| `YtDlp.QuoteForShell` | src/yt-dlp.ts:93-101 | a word of `[A-Za-z0-9_./:-]+` is left as it is; anything else is put in double quotes, with backslashes and double quotes escaped |
| `YtDlp.QuoteUnchangedIffSafe` | src/yt-dlp.ts:93-101 | quoting leaves a word unchanged exactly when it matches the safe pattern |
| `YtDlp.EscapeLength` | src/yt-dlp.ts:99 | escaping never shortens a word |
| `YtDlp.QuoteAll` | src/yt-dlp.ts:90 | quoting keeps one word per argument |
| `YtDlp.ReadBare` | src/yt-dlp.ts:89-91 | a bare word is read up to the next space |
| `YtDlp.ReadQuoted` | src/yt-dlp.ts:93-101 | reading the inside of a double-quoted word, by the POSIX backslash rules and refusing every unescaped `$` and backquote, consumes input |
| `YtDlp.ReadWord` | src/yt-dlp.ts:89-101 | reading a double-quoted or bare word never lengthens the rest |
| `YtDlp.ReadEscaped` | src/yt-dlp.ts:99-100 | an escaped word free of `$` and backquotes, with its closing quote, reads back as the word |
| `YtDlp.ReadEscapedExpansion` | src/yt-dlp.ts:99-100 | an escaped word that holds `$` or a backquote does not read back |
| `YtDlp.ReadSafe` | src/yt-dlp.ts:94-96 | a safe word reads back bare, up to what follows |
| `YtDlp.ReadSafeWord` | src/yt-dlp.ts:94-96 | a safe word is read back as itself |
| `YtDlp.ReadInQuotes` | src/yt-dlp.ts:99-100 | a word free of `$` and backquotes, escaped and in double quotes, is read back without them |
| `YtDlp.ReadQuotedWord` | src/yt-dlp.ts:93-101 | a quoted word is read back as the word, whatever follows it, when it holds no `$` or backquote, and is not read at all otherwise |
| `YtDlp.WordsOfQuoted` | src/yt-dlp.ts:90 | quoting words and joining them with single spaces reads back as those words exactly when none holds `$` or a backquote |
| `YtDlp.WordsAfter` | src/yt-dlp.ts:90 | a word read from the front of a line, before a space, is put in front of the words of the rest |
| `YtDlp.FormatCommandForDisplay` | src/yt-dlp.ts:89-91 | the displayed command line reads back as the program followed by its arguments exactly when none of them holds `$` or a backquote |
| `YtDlp.DisplayOfCommandSubstitution` | src/yt-dlp.ts:89-101 | the argument `a$(id)` does not read back from the displayed line |
| `Paths.BasenameFixedPoint` | packages/web/lib/download.ts:127 | a string is its own basename exactly when it holds no `/` |
| `Paths.JoinDotDot` | packages/web/lib/download.ts:166 | joining `..` onto `/d` gives `/` |
| `Paths.JoinDot` | packages/web/lib/download.ts:166 | joining `.` onto `/d` gives `/d` |
| `Paths.JoinName` | packages/web/lib/download.ts:166-168 | joining a plain name adds exactly one segment to the normalized directory |
| `Paths.NormalizeSegmentsIdempotent` | packages/web/lib/download.ts:224 | normalizing the segments of a path a second time changes nothing |
| `Text.TrimIdempotent` | packages/web/lib/download.ts:107 | trimming a trimmed string changes nothing |

## Left out

- Process spawning and stream collection (`runCommand`, `isCommandAvailable`, `runYtDlp`, and the ffmpeg probe and argument assembly in `downloadVideo`) are input and output. The drain loop takes the download as a function from a request to its result.
- `fileExists` and `ensureOutputDir` touch the file system. The existing files are a set parameter, and the output directory is not created.
- `getDatabase` and `ensureColumn` set up SQLite and migrate its schema. Only the row schema of `web/lib/db.ts:33-46` is kept: AUTOINCREMENT ids and a unique `url` column. These become the table's invariant.
- The table is a sequence of rows in rowid order. SQLite transactions are taken to be atomic and statements to run one after another. Check-then-insert races between concurrent requests are not modelled.
- `Queue.DownloadTable.TakeNextTask`: the guarded update `WHERE id = ? AND status = 'queued'` never misses in a sequential model, because the row was selected as queued inside the same transaction. The branch that returns `null` after a missed update is not modelled.
- `Queue.OldestQueued`: SQLite leaves the order of rows with equal `created_at` unspecified. The model picks the first in rowid order, and `Listing.SortNewestFirst` keeps ties in some newest-first order.
- The listing returns every column of the row; the query's column projection is not modelled.
- `Date.now()` is a `now` parameter. The drain loop reads `clock(t)` for the `t`-th reading.
- `startQueueProcessing` runs with promises and `queueMicrotask`. The model treats the flags as a sequential system driven by "trigger" and "loop finished" events. `current` is a boolean that says whether a promise is held.
- `YtDlp.FormatCommandForDisplay`: the round trip is stated for a reader that refuses every unescaped `$` and backquote inside double quotes. A shell also reads back some words the reader refuses, such as `"a$"`.
- `Queue.DownloadTable.RunQueue`: the drain is modelled with the table to itself. Enqueues or re-queues made by other requests during `await safeDownload` (web/lib/queue.ts:123) are not modelled, although the same loop would claim them.
- `safeDownload` turns a thrown error into a failed result. The download function of the model already returns a result.
- WHATWG `new URL` is a parser function returning an optional protocol and host name. Its own rules are not modelled.
- `node:util.parseArgs` is not modelled. `CliArgs.ParseCliArgs` takes its values and positionals as input.
- `os.homedir()` is a parameter. `CliArgs.ParseCliArgs` receives the default output directory as `defaultDir`, and `CliArgs.DefaultOutputDir` builds it from a home directory.
- The error messages of `parseCliArgs` are the constructors of `CliError`, and `Message` gives each one's text.
- `Number.parseInt` is modelled on unbounded integers. Doubles lose precision above 2^53, but that does not change the clamped limit.
- Paths follow Node's POSIX `path` rules for `join`, `resolve`, `basename` and `isAbsolute`, with `/` as the separator. Windows paths are not modelled.
- JavaScript measures strings in UTF-16 code units and the model counts characters. `truncateLogs` and the blank checks are the same for text in the Basic Multilingual Plane.
- The regular expressions of `normalizeOutputLine` are written out by hand:
  - the case-insensitive search is ASCII only
  - `.` is taken to match every character, including a CR, U+2028 or U+2029 inside a line, whereas JavaScript's `.` without the `s` flag matches none of them
  - `\s` is JavaScript's whitespace
- `Download.ExtractOutputPath`: the candidate is checked with the string-prefix test as written. An absolute candidate is not normalized, so a path such as `<dir>/../x` passes the test. The contract states only the prefix and the existence of the file; it does not state containment after normalization.
- `web/app/page.tsx` and `web/app/layout.tsx` (user interface), `src/cli.ts` and `packages/cli/src/cli.ts` (entry points, console output, exit codes), `src/help.ts` (a constant text), `packages/web/lib/config.ts` (an environment lookup) and `web/app/api/download/route.ts` (HTTP glue) are not part of this model.
