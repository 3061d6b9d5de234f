/**
 * The child-process variant of the downloader (src/services/dowloader.ts),
 * the one the command-line menu uses: its resolution-only format selector,
 * its argument vectors, the handling of stdout and stderr chunks, and a whole
 * download as a function of the environment's answers and the chunks the
 * child writes.
 *
 * `handleStdout` receives the run's `outputFile` by value and assigns to its
 * own parameter, so the path it finds never reaches the promise.
 * `ExecuteAsWritten` keeps that behaviour; `Execute` threads the path back
 * as the comment on `downloadVideo` promises, and `Download` uses it.
 */
module SpawnDownloader {
  import opened Wrappers
  import opened Text
  import opened Types
  import opened Progress
  import opened OutputParser
  import opened Invocation
  import opened Orchestration

  /** The selector both builders pass: the resolution caps the height, when it is given. */
  function Selector(o: DownloadOptions): (r: string)
    ensures Truthy(o.resolution) ==> r == "bestvideo[height<=" + o.resolution.value + "]+bestaudio/best[height<=" + o.resolution.value + "]"
    ensures !Truthy(o.resolution) ==> r == "bestvideo+bestaudio/best"
  {
    if Truthy(o.resolution) then
      var res := o.resolution.value;
      "bestvideo[height<=" + res + "]+bestaudio/best[height<=" + res + "]"
    else
      "bestvideo+bestaudio/best"
  }

  /** `buildYtDlpArgs(url, options)`. */
  function VideoArgs(url: string, o: DownloadOptions): (r: seq<string>)
    ensures |r| == 9 && r[8] == url
    ensures r[1] == "-o" && r[2] == JoinPath(OrDefault(o.outputDir, "downloads"), "%(title)s.%(ext)s")
    ensures r[3] == "-f" && r[4] == Selector(o)
    ensures r[5] == "--merge-output-format" && r[6] == OrDefault(o.format, "mp4")
  {
    VideoVector(OutputTemplate(o, VideoTemplate), Selector(o), OrDefault(o.format, DefaultContainer), url)
  }

  /** `buildPlaylistArgs(url, options)`. */
  function PlaylistArgs(url: string, o: DownloadOptions): (r: seq<string>)
    ensures |r| == (if HasLimit(o) then 12 else 10) && r[|r| - 1] == url
    ensures r[2] == JoinPath(OrDefault(o.outputDir, "downloads"), PlaylistTemplate)
    ensures r[4] == Selector(o) && r[6] == OrDefault(o.format, "mp4") && r[8] == "--yes-playlist"
    ensures HasLimit(o) ==> r[9] == "--playlist-items" && r[10] == "1-" + NatToString(o.limit.value)
  {
    PlaylistVector(OutputTemplate(o, PlaylistTemplate), Selector(o), OrDefault(o.format, DefaultContainer), Limit(o), url)
  }

  /** One `data` event of the child: a chunk of its stdout or of its stderr, as text. */
  datatype Chunk = Stdout(text: string) | Stderr(text: string)

  /**
   * `handleStdout(output, verbose, outputFile)`: the display after
   * `updateProgress`, and the value its `outputFile` parameter ends with
   * (the destination the chunk names, or the value passed in). The timer is
   * never touched; text with nothing to report leaves the display as it was,
   * and text without a destination line leaves the value as it was.
   */
  function HandleStdout(d: Display, output: string, outputFile: string): (r: (Display, string))
    ensures r.0.interval == d.interval && r.0.live == d.live && r.0.clears == d.clears
    ensures ParseOutput(output) == NoChange ==> r.0 == d
    ensures !Includes(output, DestinationMarker) ==> r.1 == outputFile
    ensures r.1 != outputFile ==> |r.1| >= 1 && forall i :: 0 <= i < |r.1| ==> !IsLineTerminator(r.1[i])
  {
    DestinationNeedsMarker(output);
    MergeNoChange(d.data);
    var file := match DestinationOf(output) case Some(x) => x case None => outputFile;
    (SetData(d, ParseOutput(output)), file)
  }

  /** `handleStderr`: only logs, when verbose; the display is untouched. */
  function HandleStderr(d: Display, output: string): (r: Display)
    ensures r == d
  {
    d
  }

  /** The run's state as the source keeps it: the display, and the closure's `outputFile`, which no handler assigns. */
  function FeedAsWritten(d: Display, chunks: seq<Chunk>, outputFile: string): (r: (Display, string))
    ensures r.1 == outputFile
    ensures r.0.interval == d.interval && r.0.live == d.live && r.0.clears == d.clears
    decreases |chunks|
  {
    if |chunks| == 0 then (d, outputFile)
    else
      var (d1, f1) := FeedAsWritten(d, chunks[..|chunks| - 1], outputFile);
      match chunks[|chunks| - 1]
      case Stdout(text) =>
        var (d2, _) := HandleStdout(d1, text, f1);
        (d2, f1)
      case Stderr(text) => (HandleStderr(d1, text), f1)
  }

  /** The chunks handled in order, the value `handleStdout` computes kept for the next chunk and the promise. */
  function Feed(d: Display, chunks: seq<Chunk>, outputFile: string): (r: (Display, string))
    ensures r.0.interval == d.interval && r.0.live == d.live && r.0.clears == d.clears
    decreases |chunks|
  {
    if |chunks| == 0 then (d, outputFile)
    else
      var (d1, f1) := Feed(d, chunks[..|chunks| - 1], outputFile);
      match chunks[|chunks| - 1]
      case Stdout(text) => HandleStdout(d1, text, f1)
      case Stderr(text) => (HandleStderr(d1, text), f1)
  }

  /** `executeDownload` as written: `outputFile` is "" when the promise resolves. */
  function ExecuteAsWritten(d: Display, chunks: seq<Chunk>, t: Terminal): (r: (Outcome, Display))
    ensures r.0.Resolved? <==> t == Close(Some(0))
    ensures r.0.Resolved? ==> r.0.value == Some("")
    ensures !Active(r.1) && r.1.clears == d.clears + 1
  {
    var (d1, file) := FeedAsWritten(Start(d), chunks, "");
    (Settle(t, Some(file)), Stop(d1))
  }

  /** `executeDownload` with the path `handleStdout` finds carried back to the promise. */
  function Execute(d: Display, chunks: seq<Chunk>, t: Terminal): (r: (Outcome, Display))
    ensures r.0.Resolved? <==> t == Close(Some(0))
    ensures !Active(r.1) && r.1.clears == d.clears + 1
  {
    var (d1, file) := Feed(Start(d), chunks, "");
    (Settle(t, Some(file)), Stop(d1))
  }

  /** `downloadVideo` (isPlaylist false) or `downloadPlaylist` (true), with the destination carried back. */
  function Download(env: Env, url: string, o: DownloadOptions, isPlaylist: bool, d: Display,
                    chunks: seq<Chunk>, t: Terminal): (r: Session)
    ensures Launched(r) <==> url != "" && env.ffmpegPresent && env.mkdirSucceeds
    ensures !Launched(r) ==> r.outcome.Rejected? && r.display == d
  {
    var (failure, effects) := Preflight(env, url, o.outputDir);
    match failure
    case Some(f) => Refused(f, d, effects)
    case None =>
      var args := if isPlaylist then PlaylistArgs(url, o) else VideoArgs(url, o);
      var (outcome, d2) := Execute(d, chunks, t);
      var r := Session(outcome, d2, effects + [Launch(args)]);
      assert r.effects[|effects|].Launch?;
      r
  }
}

/** What the vectors of the child-process variant ask of yt-dlp, and what its runs settle with. */
module SpawnDownloaderFacts {
  import opened Wrappers
  import opened Text
  import opened Types
  import opened Progress
  import opened OutputParser
  import opened Invocation
  import opened Orchestration
  import opened SpawnDownloader

  /** What one chunk does: the update merged into the snapshot, and the first destination it names, if any. */
  lemma HandleStdoutEffect(d: Display, output: string, outputFile: string)
    ensures HandleStdout(d, output, outputFile) == (SetData(d, ParseOutput(output)), DestinationOf(output).GetOr(outputFile))
  {
  }

  /** A chunk holding a destination line as its first destination makes that path the value `handleStdout` ends with. */
  lemma HandleStdoutNamesFile(d: Display, path: string, rest: string, outputFile: string)
    requires |path| >= 1 && forall i :: 0 <= i < |path| ==> !IsLineTerminator(path[i])
    requires |rest| > 0 ==> IsLineTerminator(rest[0])
    ensures HandleStdout(d, DestinationMarker + (path + rest), outputFile).1 == path
  {
    DestinationOfLine(path, rest);
  }

  /** Reads back the resolution a selector of this variant caps the height at (None: no cap). */
  function ReadResolution(s: string): (r: Option<Option<string>>)
    ensures r == Some(None) ==> s == "bestvideo+bestaudio/best"
  {
    if s == "bestvideo+bestaudio/best" then Some(None)
    else
      var body :- Lit(s, "bestvideo[height<=");
      if |body| < 26 || (|body| - 26) % 2 != 0 then None
      else
        var res := body[..(|body| - 26) / 2];
        if body == res + "]+bestaudio/best[height<=" + res + "]" then Some(Some(res)) else None
  }

  /** The selector reads back to the resolution it was built from; the other qualities play no part. */
  lemma SelectorReadsResolution(o: DownloadOptions)
    ensures ReadResolution(Selector(o)) == Some(if Truthy(o.resolution) then o.resolution else None)
  {
    if Truthy(o.resolution) {
      var res := o.resolution.value;
      var body := res + "]+bestaudio/best[height<=" + res + "]";
      assert Selector(o) == "bestvideo[height<=" + body;
      assert Selector(o)[0] != "bestvideo+bestaudio/best"[0] || Selector(o)[9] != "bestvideo+bestaudio/best"[9];
      LitOfConcat("bestvideo[height<=", body);
      assert body[..(|body| - 26) / 2] == res;
    }
  }

  /** `videoQuality` and `audioQuality` are never consulted. */
  lemma SelectorIgnoresQualities(o: DownloadOptions, vq: Option<string>, aq: Option<string>)
    ensures Selector(o.(videoQuality := vq, audioQuality := aq)) == Selector(o)
  {
  }

  /** The single-video vector reads back to its template, selector, container and URL. */
  lemma VideoArgsRead(url: string, o: DownloadOptions)
    requires PlainUrl(url)
    ensures Interpret(VideoArgs(url, o)) == Some(Settings(OutputTemplate(o, VideoTemplate), Selector(o),
      OrDefault(o.format, DefaultContainer), false, None, url))
  {
    VideoVectorRead(OutputTemplate(o, VideoTemplate), Selector(o), OrDefault(o.format, DefaultContainer), url);
  }

  /** As written, the URL `--yes-playlist` turns the single-video vector into a playlist request with no URL. */
  lemma OptionUrlBecomesFlag(o: DownloadOptions)
    ensures var r := Interpret(VideoArgs("--yes-playlist", o));
      r.Some? && r.value.urls == [] && r.value.yesPlaylist
  {
    OptionUrlRead(OutputTemplate(o, VideoTemplate), Selector(o), OrDefault(o.format, DefaultContainer), "--yes-playlist");
  }

  /** The playlist vector reads back to its settings, with the item range `1-N` exactly when a positive limit N is given. */
  lemma PlaylistArgsRead(url: string, o: DownloadOptions)
    requires PlainUrl(url)
    ensures var inv := Interpret(PlaylistArgs(url, o));
      && inv.Some? && inv.value.yesPlaylist && inv.value.urls == [url]
      && inv.value.output == Some(OutputTemplate(o, PlaylistTemplate))
      && inv.value.format == Some(Selector(o))
      && inv.value.mergeFormat == Some(OrDefault(o.format, DefaultContainer))
      && (inv.value.items.Some? <==> HasLimit(o))
      && (HasLimit(o) ==> ReadRange(inv.value.items.value) == Some(o.limit.value))
  {
    var out := OutputTemplate(o, PlaylistTemplate);
    var sel := Selector(o);
    var fmt := OrDefault(o.format, DefaultContainer);
    PlaylistVectorRead(out, sel, fmt, Limit(o), url);
    if HasLimit(o) {
      ReadRangeText(o.limit.value);
    }
  }

  /** The stdout texts of a run, in order. */
  function StdoutTexts(chunks: seq<Chunk>): (r: seq<string>)
    decreases |chunks|
  {
    if |chunks| == 0 then []
    else
      var prefix := StdoutTexts(chunks[..|chunks| - 1]);
      match chunks[|chunks| - 1]
      case Stdout(text) => prefix + [text]
      case Stderr(_) => prefix
  }

  /**
   * As written, the display sees every stdout chunk in order while
   * `outputFile` keeps the value it started with.
   */
  lemma {:induction false} FeedAsWrittenKeepsFile(d: Display, chunks: seq<Chunk>, outputFile: string)
    ensures var r := FeedAsWritten(d, chunks, outputFile);
      && r.1 == outputFile
      && r.0.data == Merge(d.data, Combined(StdoutTexts(chunks)))
      && r.0.interval == d.interval && r.0.live == d.live && r.0.clears == d.clears
    decreases |chunks|
  {
    if |chunks| == 0 {
      MergeNoChange(d.data);
    } else {
      var prefix := chunks[..|chunks| - 1];
      FeedAsWrittenKeepsFile(d, prefix, outputFile);
      var r1 := FeedAsWritten(d, prefix, outputFile);
      match chunks[|chunks| - 1]
      case Stdout(text) =>
        HandleStdoutEffect(r1.0, text, r1.1);
        MergeThen(d.data, Combined(StdoutTexts(prefix)), ParseOutput(text));
        assert StdoutTexts(chunks)[..|StdoutTexts(chunks)| - 1] == StdoutTexts(prefix);
      case Stderr(_) =>
    }
  }

  /**
   * Threading the value back, the file is the last destination the stdout
   * chunks name (or the starting value); stderr chunks change nothing.
   */
  lemma {:induction false} FeedTracks(d: Display, chunks: seq<Chunk>, outputFile: string)
    ensures var r := Feed(d, chunks, outputFile);
      && r.1 == LastPresent(Destinations(StdoutTexts(chunks))).GetOr(outputFile)
      && r.0.data == Merge(d.data, Combined(StdoutTexts(chunks)))
      && r.0.interval == d.interval && r.0.live == d.live && r.0.clears == d.clears
    decreases |chunks|
  {
    if |chunks| == 0 {
      MergeNoChange(d.data);
    } else {
      var prefix := chunks[..|chunks| - 1];
      FeedTracks(d, prefix, outputFile);
      match chunks[|chunks| - 1]
      case Stdout(text) =>
        var r1 := Feed(d, prefix, outputFile);
        HandleStdoutEffect(r1.0, text, r1.1);
        TextsSnoc(StdoutTexts(prefix), text);
        MergeThen(d.data, Combined(StdoutTexts(prefix)), ParseOutput(text));
      case Stderr(_) =>
    }
  }

  /**
   * As written, a run that closes with code 0 resolves "", whatever
   * destination the child names; the display is stopped on every path.
   */
  lemma AsWrittenResolvesEmpty(d: Display, chunks: seq<Chunk>, t: Terminal)
    ensures var r := ExecuteAsWritten(d, chunks, t);
      && (r.0.Resolved? <==> t == Close(Some(0)))
      && (r.0.Resolved? ==> r.0.value == Some(""))
      && !Active(r.1)
  {
    FeedAsWrittenKeepsFile(Start(d), chunks, "");
  }

  /** One chunk naming a destination: the run as written still resolves "". */
  lemma DestinationIsLost(d: Display, path: string)
    requires |path| >= 1 && forall i :: 0 <= i < |path| ==> !IsLineTerminator(path[i])
    ensures DestinationOf(DestinationMarker + path) == Some(path)
    ensures ExecuteAsWritten(d, [Stdout(DestinationMarker + path)], Close(Some(0))).0 == Resolved(Some(""))
    ensures Execute(d, [Stdout(DestinationMarker + path)], Close(Some(0))).0 == Resolved(Some(path))
  {
    var line := DestinationMarker + path;
    var chunks := [Stdout(line)];
    assert DestinationOf(line) == Some(path) by {
      DestinationOfLine(path, "");
      assert path + "" == path;
    }
    assert ExecuteAsWritten(d, chunks, Close(Some(0))).0 == Resolved(Some("")) by {
      AsWrittenResolvesEmpty(d, chunks, Close(Some(0)));
    }
    assert Feed(Start(d), chunks, "").1 == path by {
      assert chunks[..0] == [];
    }
  }

  /** Nothing is launched unless all three checks pass, and then the vector is launched after them. */
  lemma LaunchOnlyAfterChecks(env: Env, url: string, o: DownloadOptions, isPlaylist: bool, d: Display,
                              chunks: seq<Chunk>, t: Terminal)
    ensures var r := Download(env, url, o, isPlaylist, d, chunks, t);
      && (Launched(r) <==> url != "" && env.ffmpegPresent && env.mkdirSucceeds)
      && (Launched(r) ==>
            r.effects == CheckEffects(o.outputDir) + [Launch(if isPlaylist then PlaylistArgs(url, o) else VideoArgs(url, o))])
      && (!Launched(r) ==> r.outcome.Rejected? && r.display == d && r.effects <= CheckEffects(o.outputDir))
  {
    var r := Download(env, url, o, isPlaylist, d, chunks, t);
    var p := Preflight(env, url, o.outputDir);
    if p.0.None? {
      assert r.effects[|r.effects| - 1].Launch?;
    } else {
      assert r.effects == p.1;
    }
  }

  /**
   * A launched download settles by its terminal event and always leaves the
   * display stopped; on code 0 it resolves the last destination the stdout
   * chunks name ("" if none), and stderr chunks play no part.
   */
  lemma LaunchedRun(env: Env, url: string, o: DownloadOptions, isPlaylist: bool, d: Display,
                    chunks: seq<Chunk>, t: Terminal)
    requires url != "" && env.ffmpegPresent && env.mkdirSucceeds
    ensures var r := Download(env, url, o, isPlaylist, d, chunks, t);
      && !Active(r.display)
      && (Valid(d) ==> Valid(r.display) && r.display.live == {})
      && r.display.data == Merge(d.data, Combined(StdoutTexts(chunks)))
      && (r.outcome.Resolved? <==> t == Close(Some(0)))
      && (t.SpawnError? ==> r.outcome == Rejected(LaunchError))
      && (t.Close? && t.code != Some(0) ==> r.outcome == Rejected(DownloadFailed(t.code)))
      && (t == Close(Some(0)) ==>
            r.outcome == Resolved(Some(LastPresent(Destinations(StdoutTexts(chunks))).GetOr(""))))
  {
    FeedTracks(Start(d), chunks, "");
  }
}
