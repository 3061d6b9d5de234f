# yt-downloader, modelled in Dafny

yt-downloader is a command-line front end to `yt-dlp`. It builds an argument vector from the
user's options and launches `yt-dlp`. It reads the child's output chunk by chunk (in the `yt-dlp-wrap` variant, as events of one line
each) into a progress snapshot, which a timer draws as a one-line bar. The download settles on the child's exit code.
Two variants of the downloader exist:

- `src/services/dowloader.ts` spawns `yt-dlp` directly. This is the variant the menu in
  `src/index.ts` uses.
- `src/services/downloader.ts` goes through `yt-dlp-wrap`. It adds a richer format selector
  (`buildFormatString`).

Around the downloaders, `src/utils/progress.ts` holds the display, `src/utils/format.ts`
writes durations, and `src/utils/info.ts` asks `yt-dlp` for video and playlist metadata.

The model is a set of pure functions over immutable data, one module per concern. Two methods
carry the playlist request: the loop over the output lines (`Info.Collect`) and the `close`
handler around it (`Info.GetPlaylistInfo`).

| file | module | what it models |
|---|---|---|
| wrappers.dfy | `Wrappers` | `Option`/`Result` with `:-`, and the last present element of a sequence |
| text.dfy | `Text` | JavaScript string helpers: `\d`, `\s`, `String(n)` for naturals and its inverse, prefix/suffix search, `replace` of the first match, `split`/`join`, `trim` |
| types.dfy | `Types` | `DownloadOptions`, `VideoInfo`, `PlaylistInfo`; JavaScript's `or` default idiom on optional strings; `path.join`; the templates and defaults |
| progress.dfy | `Progress` | the snapshot, partial updates merged by spread, the timer as a set of live identities, bar arithmetic, `toFixed(1)`, the rendered line |
| parser.dfy | `OutputParser`, `OutputParserFacts` | the three regular expressions of `updateProgress` and the destination match, written as matchers; what each kind of `yt-dlp` line does to the snapshot |
| selector.dfy | `FormatSelector`, `FormatSelectorFacts` | `buildFormatString`, and a reader of the selectors it writes that recovers which streams they ask for |
| invocation.dfy | `Invocation` | how `yt-dlp` reads the options the program passes; this is the partner of every argument builder |
| orchestration.dfy | `Orchestration` | the checks before a launch, the failure cases, how `close` and `error` settle a run |
| spawn_downloader.dfy | `SpawnDownloader`, `SpawnDownloaderFacts` | the child-process variant |
| wrap_downloader.dfy | `WrapDownloader`, `WrapDownloaderFacts` | the `yt-dlp-wrap` variant |
| format.dfy | `Format` | `formatDuration` and, as its partner, a reader of what it writes |
| info.dfy | `Info` | `getVideoInfo` and `getPlaylistInfo` |

The environment enters as parameters:

- whether ffmpeg is installed;
- whether creating the directory succeeds;
- the chunks or events the child produces, in order;
- the terminal event (`close` with a code, or `error`);
- the terminal width;
- for metadata, a `decode` function that stands for `JSON.parse`.

A download is a `Session`: how its promise settled, the display afterwards, and the external
effects in order (probe ffmpeg, create the directory, launch a vector).

## Model

| member | source | states |
|---|---|---|
| Types.OrDefault | src/services/dowloader.ts:94 | the JavaScript default idiom gives the string when it is present and non-empty, otherwise the default, so `""` also falls back |
| Types.Limit | src/services/dowloader.ts:123 | a limit is used exactly when it is present and positive, and then it is the given value |
| Orchestration.MkdirTarget | src/services/dowloader.ts:68-70 | the directory default replaces only a missing value; an empty `outputDir` reaches `mkdir` as `""` |
| Orchestration.Preflight | src/services/dowloader.ts:23-76 | the URL check, the ffmpeg probe and the directory creation run in that order, and each failure stops what follows. It names the failure with its effects; all three pass exactly when the URL is non-empty, ffmpeg is present and mkdir succeeds |
| Orchestration.Settle | src/services/dowloader.ts:145-159 | a run resolves exactly on `close` with code 0. Any other code rejects with that code, and a spawn error rejects as a launch error |
| Progress.Merge | src/utils/progress.ts:50-52 | each field of the update that is present overwrites the snapshot's field; each absent one keeps it |
| Progress.MergeThen | src/utils/progress.ts:50-52 | two updates in turn equal one combined update in which the later present fields win |
| Progress.MergeIdempotent | src/utils/progress.ts:50-52 | applying the same update twice changes nothing more |
| Progress.MergeFull | src/utils/progress.ts:50-52 | an update carrying every field replaces the snapshot outright |
| Progress.SetData | src/utils/progress.ts:50-52 | `update` merges into the snapshot and leaves the timer and the line-clear count alone |
| Progress.Start | src/utils/progress.ts:23-30 | `start` clears the held timer and sets a fresh one, leaving exactly one live timer. The snapshot is not reset |
| Progress.Stop | src/utils/progress.ts:35-44 | `stop` clears the held timer and the terminal line once; without a timer it does nothing |
| Progress.StopIdempotent | src/utils/progress.ts:35-44 | a second `stop` changes nothing |
| Progress.RestartKeepsOneTimer | src/utils/progress.ts:23-30 | however many times `start` runs, exactly one timer stays live and the snapshot is kept |
| Progress.Round | src/utils/progress.ts:62 | `Math.round` gives the integer within half of x, halves going up |
| Progress.BarCells | src/utils/progress.ts:61-66 | with no terminal `columns` is undefined, the width is NaN and the bar is empty for every percentage; with a terminal the cells are those of its width |
| Progress.BarWidth | src/utils/progress.ts:61 | the bar is 50 cells or the terminal width less 30, whichever is smaller |
| Progress.BarWidthByColumns | src/utils/progress.ts:61 | a terminal at least 80 columns wide gets 50 cells |
| Progress.Cells | src/utils/progress.ts:62-66 | the filled cells are `round(width * percent / 100)` and the empty cells the rest. The line cannot be built when `repeat` gets a negative or infinite count; NaN draws nothing |
| Progress.CellsWithinWidth | src/utils/progress.ts:62-66 | a percentage from 0 to 100 and a non-negative width always draw, within the width |
| Progress.FixedOne | src/utils/progress.ts:69 | `toFixed(1)` writes a minus sign exactly for a negative number, then digits, a point and one digit |
| Progress.FixedOneReadsBack | src/utils/progress.ts:69 | `toFixed(1)` writes a canonical whole part, a point and one digit, and reads back within 0.05 of the number, for a non-negative number (every percentage the program renders is one) |
| Progress.PercentText | src/utils/progress.ts:69 | a finite percentage is written with one decimal and a sign exactly when negative; the non-finite values are written "Infinity" and "NaN" |
| Progress.RenderLine | src/utils/progress.ts:57-75 | the line starts with the bar, a space, the percentage and `% `. It then has a vertical bar, a space and the status exactly when the status is non-empty, and nothing else: its length is the cells, the number, three characters, and two more plus the status when there is one. It is drawable exactly when the cell counts are |
| Progress.NoTerminalNoBar | src/utils/progress.ts:58-69 | with no terminal the line is the percentage, `% ` and the status part alone, and it always draws, whatever the percentage |
| OutputParser.TransferAt | src/services/dowloader.ts:187-189 | a match carries five well-formed groups (digit runs around a point, units among K, M and G) and the matched text starts with `[download]` |
| OutputParser.TransferAtSound | src/services/dowloader.ts:187-189 | only a transfer report matches: accepted text is a report with some white-space runs, an optional `~` and any text after it, its units being K, M or G |
| OutputParser.TransferAtOf | src/services/dowloader.ts:187-189 | every transfer report, with any white-space runs, optional `~` and any text after it, is read back to its five groups |
| OutputParser.ItemAt | src/services/dowloader.ts:208-210 | a match is two non-empty runs of digits, and the matched text starts with the item marker |
| OutputParser.ItemAtSound | src/services/dowloader.ts:208-210 | only an item line matches: the marker, the two numbers, and text that does not go on with a digit |
| OutputParser.ItemAtOf | src/services/dowloader.ts:208-210 | a playlist item line is read back to its two numbers |
| OutputParser.DestinationAt | src/services/dowloader.ts:172 | a match is a non-empty path holding no line terminator |
| OutputParser.DestinationAtSound | src/services/dowloader.ts:172 | only a destination line matches: the marker, the path, then the end of the text or of the line |
| OutputParser.DestinationOf | src/services/dowloader.ts:172 | a destination is found exactly when one matches somewhere in the text. It is non-empty and stops at the line's end, and it is the path of the first position where a destination line matches, wherever that is in the text |
| OutputParser.DestinationOfLine | src/services/dowloader.ts:172-175 | a destination line gives back the path it names |
| OutputParser.ItemPercent | src/services/dowloader.ts:215 | `(current / total) * 100` is exact for a non-zero total, Infinity for N of 0, NaN for 0 of 0 |
| OutputParser.ParseOutput | src/services/dowloader.ts:186-220 | the text changes nothing exactly when it holds no transfer report, no merge notice and no item line. A report sets every field; a merge notice without a report sets 100 and the merging status. The values come from the first position where a report matches, wherever it is in the text; without a report or merge notice, from the first position where an item line matches |
| OutputParser.ItemNeedsMarker | src/services/dowloader.ts:207-211 | the `includes` test before the item pattern never hides a line the pattern matches |
| OutputParserFacts.SizeSetExactlyAtReport | src/services/dowloader.ts:187-201 | a chunk sets the size exactly when a transfer report starts somewhere in it |
| OutputParserFacts.DestinationAfterLog | src/services/dowloader.ts:172-175 | a destination line after log text holding no `[download]` tag, such as `[youtube] x: Downloading webpage` and a newline, names the file of that line |
| OutputParserFacts.TransferAfterLog | src/services/dowloader.ts:187-201 | a transfer report after log text holding no `[download]` tag sets every field from that report |
| OutputParserFacts.ParseTransferText | src/services/dowloader.ts:191-201 | a report sets the percent to its exact value, the size and speed with units, and the status "size à speed" (the update `OutputParser.TransferUpdate` builds) |
| OutputParserFacts.ParseMergingText | src/services/dowloader.ts:202-206 | the merge notice sets percent 100 and "Fusion des formats...", and nothing else |
| OutputParserFacts.ParseItemText | src/services/dowloader.ts:207-218 | an item line sets the percent to N * 100 / M and the status to "Vidéo N/M" (the update `OutputParser.ItemUpdate` builds) |
| OutputParserFacts.TransferExample | src/services/dowloader.ts:186-201 | `[download]  42.5% of ~123.4MiB at 5.6MiB/s` gives 42.5, "123.4MiB", "5.6MiB/s" and "123.4MiB à 5.6MiB/s" |
| OutputParserFacts.ItemExample | src/services/dowloader.ts:207-218 | `[download] Downloading video 3 of 10` gives 30 and "Vidéo 3/10" |
| OutputParserFacts.PlainTextChangesNothing | src/services/dowloader.ts:186-220 | text with no `%`, `M` or `v` leaves the snapshot as it is |
| OutputParserFacts.UntaggedTextChangesNothing | src/services/dowloader.ts:186-220 | text with no `[` leaves the snapshot as it is |
| OutputParserFacts.SplitReportIsLost | src/services/dowloader.ts:138-140 | each chunk is parsed alone, so a report cut before its `%` changes nothing in either half, while the whole report sets every field |
| FormatSelector.VideoSelector | src/services/downloader.ts:87-92 | the video half is exactly the text of the stream the quality asks for: a height cap for a number, otherwise the best |
| FormatSelector.AudioSelector | src/services/downloader.ts:94-99 | the audio half is exactly the text of the stream the quality asks for: a bitrate floor for `<n>k` with its first `k` removed, otherwise the best |
| FormatSelector.BuildFormatString | src/services/downloader.ts:82-106 | the three early returns for "worst" and "worstaudio". Past them, the selector is "bestvideo+bestaudio/best" exactly when neither quality asks for a height, a bitrate or anything but the best |
| FormatSelector.VideoQuality | src/services/downloader.ts:114-117 | the video quality wins when it is non-empty; otherwise the resolution is used; `FormatSelector.OptionsSelector` passes it and the audio quality to `BuildFormatString` |
| FormatSelectorFacts.SelectorHonoursRequest | src/services/downloader.ts:82-106 | with neither "worst" request, the selector reads back to exactly the video and audio streams requested |
| FormatSelectorFacts.WorstVideoDropsAudioRequest | src/services/downloader.ts:83-84 | "worst" video asks for the worst audio only with "worstaudio"; any other audio request becomes the best audio |
| FormatSelectorFacts.WorstAudioDropsHeight | src/services/downloader.ts:85 | "worstaudio" without "worst" video drops any requested height |
| FormatSelectorFacts.WorstSelectorsUnreachable | src/services/downloader.ts:87-99 | the `wv*` and `wa*` branches are never taken, because the early returns catch both cases |
| FormatSelectorFacts.GeneralShape | src/services/downloader.ts:101-105 | past the early returns and the collapse rule, the selector is `V+A/V/best` |
| FormatSelectorFacts.ReadGeneral | src/services/downloader.ts:105 | every general selector reads back to the streams it was written from |
| FormatSelectorFacts.HeightOnly | src/services/downloader.ts:87-105 | a numeric quality alone gives `bv*[height<=?N]+ba*/bv*[height<=?N]/best` |
| FormatSelectorFacts.BitrateOnly | src/services/downloader.ts:94-105 | a `<n>k` audio quality alone gives `bv*+ba*[abr>=?n]/bv*/best` |
| Invocation.ReadRangeText | src/services/dowloader.ts:124 | the range `1-N` reads back to N |
| SpawnDownloader.Selector | src/services/dowloader.ts:83-85 | a non-empty resolution caps the video and the fallback at that height; otherwise the selector is `bestvideo+bestaudio/best` |
| SpawnDownloaderFacts.SelectorReadsResolution | src/services/dowloader.ts:83-85 | the selector reads back to the resolution it was built from, or to no cap |
| SpawnDownloaderFacts.SelectorIgnoresQualities | src/services/dowloader.ts:83-85 | the video and audio qualities play no part in this variant |
| SpawnDownloader.VideoArgs | src/services/dowloader.ts:78-98 | nine arguments: the template under `outputDir`, or `downloads` when that is missing or empty, the selector, the container defaulting to mp4, and the URL last (the template is `Types.OutputTemplate`) |
| SpawnDownloader.PlaylistArgs | src/services/dowloader.ts:100-129 | the playlist template, `--yes-playlist`, then `--playlist-items 1-N` exactly for a positive limit, and the URL last |
| SpawnDownloaderFacts.VideoArgsRead | src/services/dowloader.ts:78-98 | `yt-dlp` reads the single-video vector as that template, selector and container, line-by-line output, console title, and the one URL, for a URL not starting with `-` |
| SpawnDownloaderFacts.PlaylistArgsRead | src/services/dowloader.ts:100-129 | `yt-dlp` reads the playlist vector as a playlist download of the one URL; the item range is present exactly when the limit is positive, and it reads back to the limit, for a URL not starting with `-` |
| Invocation.OptionUrlRead | src/services/dowloader.ts:78-98 | a URL starting with `-` is read as an option, since no `--` comes before it: the single-video vector is read exactly when the URL is a flag `yt-dlp` knows, and then it holds no URL at all |
| SpawnDownloaderFacts.OptionUrlBecomesFlag | src/services/dowloader.ts:53-98 | as written, the URL `--yes-playlist`, which the only-empty check lets through, makes the single-video vector a playlist request with no URL |
| SpawnDownloader.HandleStdout | src/services/dowloader.ts:163-178 | a chunk never touches the timer. Text with nothing to report leaves the display as it was; text without the destination marker leaves the value as it was, and a new value is a non-empty path with no line terminator |
| SpawnDownloaderFacts.HandleStdoutNamesFile | src/services/dowloader.ts:172-175 | a chunk whose first destination line names a path ends with that path as its value |
| SpawnDownloader.HandleStderr | src/services/dowloader.ts:180-184 | a stderr chunk leaves the display unchanged |
| SpawnDownloader.FeedAsWritten | src/services/dowloader.ts:138-143 | as written, the run's `outputFile` keeps its starting value through every chunk, and the timer is untouched |
| SpawnDownloader.Feed | src/services/dowloader.ts:138-143 | with the value carried back from chunk to chunk, handling the chunks never touches the timer |
| SpawnDownloaderFacts.FeedAsWrittenKeepsFile | src/services/dowloader.ts:138-140 | as written, every stdout chunk updates the display in order, but the run's `outputFile` never changes |
| SpawnDownloaderFacts.FeedTracks | src/services/dowloader.ts:163-177 | with the value carried back, the file is the last destination the stdout chunks name, and the snapshot has every update merged in order |
| SpawnDownloader.ExecuteAsWritten | src/services/dowloader.ts:131-161 | as written, a run resolves exactly on exit 0 and then with `""`; the display ends stopped, its line cleared once |
| SpawnDownloader.Execute | src/services/dowloader.ts:131-161 | the corrected run of the Findings row: it resolves exactly on exit 0, and the display ends stopped, its line cleared once |
| SpawnDownloaderFacts.AsWrittenResolvesEmpty | src/services/dowloader.ts:131-161 | as written, a successful run resolves `""` whatever the child printed, and the display is stopped |
| SpawnDownloaderFacts.DestinationIsLost | src/services/dowloader.ts:163-175 | one destination chunk and exit 0: the code as written resolves `""`, the corrected run resolves the path |
| SpawnDownloader.Download | src/services/dowloader.ts:23-52 | the corrected run of the Findings row, composed with the checks: a vector is launched exactly when all three checks pass; a refused download is rejected and leaves the display untouched |
| SpawnDownloaderFacts.LaunchOnlyAfterChecks | src/services/dowloader.ts:23-52 | a vector is launched exactly when all three checks pass, and then after them; a refused download leaves the display untouched |
| SpawnDownloaderFacts.LaunchedRun | src/services/dowloader.ts:131-161 | the corrected run of the Findings row, not the code as written: a launched run always ends with the display stopped. It resolves exactly on exit 0, with the last destination or `""`, and rejects with the code or as a launch error. As written it resolves `""` (`SpawnDownloaderFacts.AsWrittenResolvesEmpty`) |
| WrapDownloader.VideoArgs | src/services/downloader.ts:108-130 | nine arguments with `buildFormatString` of the video quality (falling back to the resolution) and the audio quality as the selector, and the URL last |
| WrapDownloader.PlaylistArgs | src/services/downloader.ts:132-161 | the same selector, `--yes-playlist`, `--playlist-items 1-N` exactly for a positive limit, and the URL last |
| WrapDownloaderFacts.VideoArgsRead | src/services/downloader.ts:108-130 | `yt-dlp` reads the single-video vector back to its template, selector, container and URL, for a URL not starting with `-` |
| WrapDownloaderFacts.PlaylistArgsRead | src/services/downloader.ts:132-161 | `yt-dlp` reads the playlist vector back to its settings, with the range exactly for a positive limit, for a URL not starting with `-` |
| WrapDownloader.HandleEvent | src/services/downloader.ts:202-213 | an event never touches the timer. A line with nothing to report leaves the display as it was; a line without the destination marker leaves `currentOutputFile` as it was, and a new value is a non-empty path with no line terminator. The line is `[type] data` (`WrapDownloader.EventLine`) |
| WrapDownloaderFacts.HandleEventNamesFile | src/services/downloader.ts:174-213 | a `download` event whose data is `Destination: ` and a path makes that path `currentOutputFile` |
| WrapDownloader.Feed | src/services/downloader.ts:174-177 | handling the events never touches the timer |
| WrapDownloaderFacts.FeedTracks | src/services/downloader.ts:174-177 | after the events, `currentOutputFile` is the last destination named, or what it was. The snapshot has every update in order and the timer is untouched |
| WrapDownloader.Execute | src/services/downloader.ts:163-200 | a run resolves exactly on exit 0, with nothing for a playlist and a path for a video; the display ends stopped, its line cleared once |
| WrapDownloader.Download | src/services/downloader.ts:27-56 | a vector is launched exactly when all three checks pass; a refused download is rejected and leaves the display untouched |
| WrapDownloaderFacts.LaunchOnlyAfterChecks | src/services/downloader.ts:27-56 | a vector is launched exactly when all three checks pass, and then after them |
| WrapDownloaderFacts.LaunchedRun | src/services/downloader.ts:163-200 | the display ends stopped. Exit 0 resolves the last destination (or `""`) for a video and nothing for a playlist; other endings reject |
| Format.JsRem | src/utils/format.ts:24-25 | JavaScript `%` keeps the sign of the dividend, stays within the modulus and differs from the dividend by a multiple of the modulus, which fixes its value; on non-negative numbers it is the mathematical remainder |
| Format.FormatDuration | src/utils/format.ts:20-21 | a missing or zero duration is "Durée inconnue" |
| Format.FieldsDecompose | src/utils/format.ts:23-25 | for a non-negative duration the fields are hours, minutes below 60 and seconds below 60, and they add back up to the duration (`Format.Fields`) |
| Format.FormatShape | src/utils/format.ts:27-33 | one hour or more gives `Hh Mm Ss`; a minute or more gives `Mm Ss`; less gives `Ss` (`Format.Render`) |
| Format.ParseRendered | src/utils/format.ts:27-33 | each of the three shapes reads back to the seconds its fields stand for |
| Format.ParseFormatted | src/utils/format.ts:20-34 | what `formatDuration` writes for a positive whole duration reads back to that duration |
| Format.FormatInjective | src/utils/format.ts:20-34 | distinct positive durations are written differently |
| Info.Size | src/utils/info.ts:31 | the size is the exact size if truthy, else the estimate if truthy, else 0 |
| Info.VideoInfoArgsRead | src/utils/info.ts:10 | the request asks `yt-dlp` for the JSON of the one video at the URL, not the playlist, without downloading, for a URL not starting with `-`; the vector is `Info.VideoInfoArgs` |
| Info.PlaylistInfoArgsRead | src/utils/info.ts:50-56 | the request asks for the flat JSON of the playlist at the URL, without downloading, for a URL not starting with `-`; the vector is `Info.PlaylistInfoArgs` |
| Info.VideoOf | src/utils/info.ts:28-33 | the video request keeps the record's `title`, `duration` and `webpage_url` as they are, with the size falling back as in `Info.Size` |
| Info.EntryOf | src/utils/info.ts:87-92 | a playlist entry keeps the title, counts a falsy duration as 0, takes `webpage_url` when truthy and `url` otherwise, with the size falling back as in `Info.Size` |
| Info.MappingsDiffer | src/utils/info.ts:28-92 | without `webpage_url` the video request has no URL while the playlist entry takes `url`; without a duration the video request has none while the entry counts 0 |
| Info.VideoOfRecordOf | src/utils/info.ts:27-33 | the mapping gives back every `VideoInfo` from the record holding its fields |
| Info.EntryOfRecordOf | src/utils/info.ts:87-92 | the playlist mapping gives back every entry that has a duration and a URL other than `""` |
| Info.EntryRefinesVideo | src/utils/info.ts:87-92 | the two mappings agree on title and size, and differ only where the playlist adds its duration default and URL fallback |
| Info.GetVideoInfo | src/utils/info.ts:24-40 | resolves exactly on code 0 with output that decodes, with the record's title, duration and `webpage_url` and the size falling back as above. A non-zero code is a command failure with that code; undecodable output is a data error |
| Info.Lines | src/utils/info.ts:73 | the lines contain no newline, there is at least one, and joined they give back the trimmed output |
| Info.BlankOutputLines | src/utils/info.ts:73 | blank output gives the one empty line |
| Info.BlankOutputRejected | src/utils/info.ts:73-80 | with a `JSON.parse` that refuses empty text, blank output fails: the playlist request meets a line that does not decode, and an empty video answer is a data error |
| Info.DecodedAll | src/utils/info.ts:79-80 | the lines decode exactly when each one does, record i being line i's |
| Info.FirstTitleIsFirst | src/utils/info.ts:83-85 | the playlist title is the `playlist` field of the first record where it is truthy; there is none exactly when no record has one |
| Info.TotalsAppend | src/utils/info.ts:94-95 | the totals of two runs of entries add up |
| Info.CollectStep | src/utils/info.ts:79-96 | one more line that decodes adds its record and its playlist entry. The title found so far is kept, or taken from this record when none was found and its `playlist` is truthy, and the line's size and duration are added to the totals |
| Info.Collect | src/utils/info.ts:79-104 | succeeds exactly when every line decodes. Then it holds one entry per line in order, mapped as the playlist mapping does, a count equal to the number of lines, the sums of sizes and durations, and the first playlist title or "Playlist" |
| Info.GetPlaylistInfo | src/utils/info.ts:70-110 | a non-zero code is a command failure. On code 0 it succeeds exactly when every line of the trimmed output decodes, otherwise it is a data error; success summarises the lines as above |

## Left out

- Terminal I/O is not modelled: colours (`chalk`), the verbose logging of stdout and stderr, and the writing of the line. The model stops at the text of the line and counts how often the line is cleared.
- A synchronous exception from `spawn` itself (`src/services/dowloader.ts:136`, for instance an argument holding a NUL byte, which Node's argument check rejects) or from `ytDlpWrap.exec` (`src/services/downloader.ts:172`) is not modelled. It would reject the promise after `progress.start()` with no `stop()`, leaving the timer drawing. `Terminal` has only `close` and the `error` event, so `LaunchedRun` and both `Execute` members promise a stopped display only for those two endings.
- The timer's callback is not modelled. `RenderLine` is what each tick draws, but the timing of ticks is not.
- Percentages are exact reals, so double rounding is not modelled. Neither is `toFixed` for values of 10^21 and above.
- `path.join` is modelled as `dir + "/" + name`, without normalising `.`, `..` or repeated separators.
- Durations are whole numbers of seconds; fractional durations are not modelled. Negative whole durations follow JavaScript's `%` and `Math.floor`.
- Limits are whole numbers; a fractional limit is not modelled. `parseInt` of the item counters is exact, with no loss of precision for very long digit strings.
- `JSON.parse` is a parameter (`decode`), not a model of JSON. Fields of the wrong type are not modelled.
- `getVideoInfo` and `getPlaylistInfo` attach no `error` handler. A spawn failure emits an `error` event nobody listens to, so Node throws it as an uncaught exception; `src/index.ts` installs only a SIGINT handler, so the process ends. The model takes the exit code as given and has no spawn-error case for them.
- The metadata requests see their stdout as one string, the chunks already concatenated. Their stderr is only logged and is left out.
- `yt-dlp-wrap`'s splitting of the child's output into `(eventType, eventData)` events is not modelled; the events are the input.
- Events that arrive after a run has settled are not modelled.
- `formatBytes` (src/utils/format.ts) is not used by the core. It is left out because it works on logarithms and floating point.
- `src/index.ts` (the interactive menu), `src/utils/config.ts` and `src/utils/ffmpeg.ts` are not part of this model. The ffmpeg check enters as `Env.ffmpegPresent`.
- SpawnDownloaderFacts.VideoArgsRead, SpawnDownloaderFacts.PlaylistArgsRead, WrapDownloaderFacts.VideoArgsRead, WrapDownloaderFacts.PlaylistArgsRead, Info.VideoInfoArgsRead and Info.PlaylistInfoArgsRead hold only for a URL not starting with `-`. The program checks only that the URL is non-empty (`src/index.ts:72`, `src/services/dowloader.ts:54`, `src/services/downloader.ts:58`; `src/utils/info.ts` not at all) and puts no `--` before it, so `yt-dlp` reads such a URL as an option (`Invocation.OptionUrlRead`, `SpawnDownloaderFacts.OptionUrlBecomesFlag`).
- WrapDownloader.PlaylistArgs: its ensures gives the length, the selector, the playlist flag, the item range and the URL, but not every position. `WrapDownloaderFacts.PlaylistArgsRead` states the whole vector through the way `yt-dlp` reads it.
- Invocation: only the options the program passes are read. Any other option is refused rather than interpreted as `yt-dlp` would.

Four behaviours of the code that the model keeps:

- Chunks are parsed one at a time with no carry-over of partial lines. `OutputParserFacts.SplitReportIsLost` shows a report cut in two being lost.
- `start` does not reset the snapshot. A second download starts from the last snapshot of the previous one (`Progress.Start`).
- `match` takes only the first transfer report, and the first destination, in a chunk, wherever in the chunk it is (`OutputParser.DestinationOf`, `OutputParser.ParseOutput`).
- An empty `outputDir` is passed to `mkdir` as `""`, while the template falls back to `downloads` (`Orchestration.MkdirTarget`).

## Findings

| source | as written | input that shows it | evidently intended | confidence | as-written member | corrected member |
|---|---|---|---|---|---|---|
| src/services/dowloader.ts:163-175 | `handleStdout` assigns the destination to its own `outputFile` parameter, a copy of the run's variable, so the promise always resolves `""` | one stdout chunk `[download] Destination: a.mp4`, then `close` with code 0: resolves `""` | resolve with the destination path, as the comment on `downloadVideo` promises | not executed | SpawnDownloaderFacts.DestinationIsLost | SpawnDownloaderFacts.LaunchedRun |
