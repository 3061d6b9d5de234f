/**
 * The yt-dlp-wrap variant of the downloader (src/services/downloader.ts):
 * its argument vectors, the handling of each `ytDlpEvent` (destination
 * tracking and progress update), and a whole download as a function of the
 * environment's answers and the events the child produces. yt-dlp-wrap's own
 * splitting of yt-dlp's output into `(eventType, eventData)` pairs is not
 * part of this model: the pairs are the input.
 */
module WrapDownloader {
  import opened Wrappers
  import opened Text
  import opened Types
  import opened Progress
  import opened OutputParser
  import opened FormatSelector
  import opened Invocation
  import opened Orchestration

  /** `buildYtDlpArgs(url, options)`. */
  function VideoArgs(url: string, o: DownloadOptions): (r: seq<string>)
    ensures |r| == 9 && r[8] == url
    ensures r[1] == "-o" && r[2] == JoinPath(OrDefault(o.outputDir, "downloads"), "%(title)s.%(ext)s")
    ensures r[3] == "-f" && r[4] == OptionsSelector(o)
    ensures r[5] == "--merge-output-format" && r[6] == OrDefault(o.format, "mp4")
  {
    VideoVector(OutputTemplate(o, VideoTemplate), OptionsSelector(o), OrDefault(o.format, DefaultContainer), url)
  }

  /** `buildPlaylistArgs(url, options)`. */
  function PlaylistArgs(url: string, o: DownloadOptions): (r: seq<string>)
    ensures |r| == (if HasLimit(o) then 12 else 10) && r[|r| - 1] == url
    ensures r[2] == JoinPath(OrDefault(o.outputDir, "downloads"), PlaylistTemplate)
    ensures r[4] == OptionsSelector(o) && r[6] == OrDefault(o.format, "mp4") && r[8] == "--yes-playlist"
    ensures HasLimit(o) ==> r[9] == "--playlist-items" && r[10] == "1-" + NatToString(o.limit.value)
  {
    PlaylistVector(OutputTemplate(o, PlaylistTemplate), OptionsSelector(o), OrDefault(o.format, DefaultContainer), Limit(o), url)
  }

  /** The line `handleStdout` sees for one event: `[${eventType}] ${eventData}`. */
  function EventLine(e: (string, string)): string {
    "[" + e.0 + "] " + e.1
  }

  /** The instance state a run changes: the display and `currentOutputFile`. */
  datatype WrapState = WrapState(display: Display, currentOutputFile: string)

  /**
   * `handleStdout` of one event: a destination line replaces the file; every
   * line goes to `updateProgress`. The timer is never touched; a line with
   * nothing to report leaves the display as it was, and a line without the
   * destination marker leaves the file as it was.
   */
  function HandleEvent(s: WrapState, e: (string, string)): (r: WrapState)
    ensures r.display.interval == s.display.interval && r.display.live == s.display.live
    ensures r.display.clears == s.display.clears
    ensures ParseOutput(EventLine(e)) == NoChange ==> r.display == s.display
    ensures !Includes(EventLine(e), DestinationMarker) ==> r.currentOutputFile == s.currentOutputFile
    ensures r.currentOutputFile != s.currentOutputFile ==>
      |r.currentOutputFile| >= 1 && forall i :: 0 <= i < |r.currentOutputFile| ==> !IsLineTerminator(r.currentOutputFile[i])
  {
    var output := EventLine(e);
    DestinationNeedsMarker(output);
    MergeNoChange(s.display.data);
    var file := match DestinationOf(output) case Some(x) => x case None => s.currentOutputFile;
    WrapState(SetData(s.display, ParseOutput(output)), file)
  }

  /** The events handled in order. */
  function Feed(s: WrapState, events: seq<(string, string)>): (r: WrapState)
    ensures r.display.interval == s.display.interval && r.display.live == s.display.live
    ensures r.display.clears == s.display.clears
    decreases |events|
  {
    if |events| == 0 then s else HandleEvent(Feed(s, events[..|events| - 1]), events[|events| - 1])
  }

  /** `executeDownload` from the reset of `currentOutputFile` to the settling of the promise. */
  function Execute(d: Display, events: seq<(string, string)>, t: Terminal, isPlaylist: bool): (r: (Outcome, Display))
    ensures r.0.Resolved? <==> t == Close(Some(0))
    ensures isPlaylist && r.0.Resolved? ==> r.0.value.None?
    ensures !isPlaylist && r.0.Resolved? ==> r.0.value.Some?
    ensures !Active(r.1) && r.1.clears == d.clears + 1
  {
    var s := Feed(WrapState(Start(d), ""), events);
    (Settle(t, if isPlaylist then None else Some(s.currentOutputFile)), Stop(s.display))
  }

  /**
   * `downloadVideo` (isPlaylist false) or `downloadPlaylist` (true) on an
   * instance whose display is `d`, with the child producing `events` and
   * then `t`.
   */
  function Download(env: Env, url: string, o: DownloadOptions, isPlaylist: bool, d: Display,
                    events: seq<(string, string)>, t: Terminal): (r: Session)
    ensures Launched(r) <==> url != "" && env.ffmpegPresent && env.mkdirSucceeds
    ensures !Launched(r) ==> r.outcome.Rejected? && r.display == d
  {
    var (failure, effects) := Preflight(env, url, o.outputDir);
    match failure
    case Some(f) => Refused(f, d, effects)
    case None =>
      var args := if isPlaylist then PlaylistArgs(url, o) else VideoArgs(url, o);
      var (outcome, d2) := Execute(d, events, t, isPlaylist);
      var r := Session(outcome, d2, effects + [Launch(args)]);
      assert r.effects[|effects|].Launch?;
      r
  }
}

/** What the argument vectors ask of yt-dlp, and what a run of the yt-dlp-wrap variant settles with. */
module WrapDownloaderFacts {
  import opened Wrappers
  import opened Text
  import opened Types
  import opened Progress
  import opened OutputParser
  import opened FormatSelector
  import opened Invocation
  import opened Orchestration
  import opened WrapDownloader

  /** The single-video vector reads back to its template, selector, container and URL. */
  lemma VideoArgsRead(url: string, o: DownloadOptions)
    requires PlainUrl(url)
    ensures Interpret(VideoArgs(url, o)) == Some(Settings(OutputTemplate(o, VideoTemplate), OptionsSelector(o),
      OrDefault(o.format, DefaultContainer), false, None, url))
  {
    VideoVectorRead(OutputTemplate(o, VideoTemplate), OptionsSelector(o), OrDefault(o.format, DefaultContainer), url);
  }

  /** The playlist vector reads back to its settings, with the item range `1-N` exactly when a positive limit N is given. */
  lemma PlaylistArgsRead(url: string, o: DownloadOptions)
    requires PlainUrl(url)
    ensures var inv := Interpret(PlaylistArgs(url, o));
      && inv.Some? && inv.value.yesPlaylist && inv.value.urls == [url]
      && inv.value.output == Some(OutputTemplate(o, PlaylistTemplate))
      && inv.value.format == Some(OptionsSelector(o))
      && inv.value.mergeFormat == Some(OrDefault(o.format, DefaultContainer))
      && (inv.value.items.Some? <==> HasLimit(o))
      && (HasLimit(o) ==> ReadRange(inv.value.items.value) == Some(o.limit.value))
  {
    var out := OutputTemplate(o, PlaylistTemplate);
    var sel := OptionsSelector(o);
    var fmt := OrDefault(o.format, DefaultContainer);
    PlaylistVectorRead(out, sel, fmt, Limit(o), url);
    if HasLimit(o) {
      ReadRangeText(o.limit.value);
    }
  }

  /** What one event does: the update merged into the snapshot, and the first destination its line names, if any. */
  lemma HandleEventEffect(s: WrapState, e: (string, string))
    ensures HandleEvent(s, e) == WrapState(SetData(s.display, ParseOutput(EventLine(e))),
      DestinationOf(EventLine(e)).GetOr(s.currentOutputFile))
  {
  }

  /** An event whose line holds a destination line first makes that path the current file. */
  lemma HandleEventNamesFile(s: WrapState, path: string, rest: string)
    requires |path| >= 1 && forall i :: 0 <= i < |path| ==> !IsLineTerminator(path[i])
    requires |rest| > 0 ==> IsLineTerminator(rest[0])
    ensures HandleEvent(s, ("download", "Destination: " + (path + rest))).currentOutputFile == path
  {
    assert EventLine(("download", "Destination: " + (path + rest))) == DestinationMarker + (path + rest);
    DestinationOfLine(path, rest);
  }

  /** The last destination among `lines`: the reference for what `currentOutputFile` holds after a run. */
  function LastDestination(lines: seq<string>): Option<string> {
    LastPresent(Destinations(lines))
  }

  /** The line `handleStdout` sees for each event, in order. */
  function Lines(events: seq<(string, string)>): (r: seq<string>)
    ensures |r| == |events| && forall i :: 0 <= i < |events| ==> r[i] == EventLine(events[i])
  {
    seq(|events|, i requires 0 <= i < |events| => EventLine(events[i]))
  }

  /** The lines of the events are those of all but the last, then the last one's line. */
  lemma LinesSnoc(events: seq<(string, string)>)
    requires |events| > 0
    ensures Lines(events) == Lines(events[..|events| - 1]) + [EventLine(events[|events| - 1])]
  {
    var prefix := events[..|events| - 1];
    var r := Lines(prefix) + [EventLine(events[|events| - 1])];
    forall i | 0 <= i < |events|
      ensures Lines(events)[i] == r[i]
    {
      if i < |prefix| {
        assert prefix[i] == events[i];
      }
    }
  }

  /**
   * After the events, the file is the last destination seen (or what it was),
   * the snapshot has every update merged in order, and the timer is untouched.
   */
  lemma {:induction false} FeedTracks(s: WrapState, events: seq<(string, string)>)
    ensures var r := Feed(s, events);
      && r.currentOutputFile == LastDestination(Lines(events)).GetOr(s.currentOutputFile)
      && r.display.data == Merge(s.display.data, Combined(Lines(events)))
      && r.display.interval == s.display.interval && r.display.live == s.display.live
      && r.display.clears == s.display.clears
    decreases |events|
  {
    if |events| == 0 {
      MergeNoChange(s.display.data);
    } else {
      var prefix := events[..|events| - 1];
      var e := events[|events| - 1];
      FeedTracks(s, prefix);
      HandleEventEffect(Feed(s, prefix), e);
      LinesSnoc(events);
      TextsSnoc(Lines(prefix), EventLine(e));
      MergeThen(s.display.data, Combined(Lines(prefix)), ParseOutput(EventLine(e)));
    }
  }

  /** Nothing is launched unless all three checks pass, and then the vector is launched after them. */
  lemma LaunchOnlyAfterChecks(env: Env, url: string, o: DownloadOptions, isPlaylist: bool, d: Display,
                              events: seq<(string, string)>, t: Terminal)
    ensures var r := Download(env, url, o, isPlaylist, d, events, t);
      && (Launched(r) <==> url != "" && env.ffmpegPresent && env.mkdirSucceeds)
      && (Launched(r) ==>
            r.effects == CheckEffects(o.outputDir) + [Launch(if isPlaylist then PlaylistArgs(url, o) else VideoArgs(url, o))])
      && (!Launched(r) ==> r.outcome.Rejected? && r.display == d && r.effects <= CheckEffects(o.outputDir))
  {
    var r := Download(env, url, o, isPlaylist, d, events, t);
    var p := Preflight(env, url, o.outputDir);
    if p.0.None? {
      assert r.effects[|r.effects| - 1].Launch?;
    } else {
      assert r.effects == p.1;
    }
  }

  /**
   * A launched download settles by its terminal event and always leaves the
   * display stopped: a video resolves the last destination ("" if none), a
   * playlist resolves nothing, and the snapshot keeps what the events did
   * not overwrite.
   */
  lemma LaunchedRun(env: Env, url: string, o: DownloadOptions, isPlaylist: bool, d: Display,
                    events: seq<(string, string)>, t: Terminal)
    requires url != "" && env.ffmpegPresent && env.mkdirSucceeds
    ensures var r := Download(env, url, o, isPlaylist, d, events, t);
      && !Active(r.display)
      && (Valid(d) ==> Valid(r.display) && r.display.live == {})
      && r.display.data == Merge(d.data, Combined(Lines(events)))
      && (r.outcome.Resolved? <==> t == Close(Some(0)))
      && (t.SpawnError? ==> r.outcome == Rejected(LaunchError))
      && (t.Close? && t.code != Some(0) ==> r.outcome == Rejected(DownloadFailed(t.code)))
      && (t == Close(Some(0)) && !isPlaylist ==> r.outcome == Resolved(Some(LastDestination(Lines(events)).GetOr(""))))
      && (t == Close(Some(0)) && isPlaylist ==> r.outcome == Resolved(None))
  {
    FeedTracks(WrapState(Start(d), ""), events);
  }
}
