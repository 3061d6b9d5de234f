/**
 * The metadata requests of src/utils/info.ts: `getVideoInfo` reads one JSON
 * record from yt-dlp's output, `getPlaylistInfo` one record per line, and both
 * map the fields they use onto `VideoInfo`. `JSON.parse` is outside the model:
 * it is the `decode` parameter, None where it throws or where the value it
 * gives has no properties to read (`null`). The child's output arrives as the
 * concatenation of its stdout chunks, and its exit code settles the request.
 */
module Info {
  import opened Wrappers
  import opened Text
  import opened Types
  import opened Invocation

  /** The fields of one decoded record the program reads; an absent or `null` field is None. */
  datatype Record = Record(
    title: Option<string>,
    duration: Option<int>,
    filesize: Option<int>,
    filesizeApprox: Option<int>,  // filesize_approx
    webpageUrl: Option<string>,   // webpage_url
    url: Option<string>,
    playlist: Option<string>
  )

  /** Why a request is rejected. */
  datatype InfoFailure =
    | BadData                       // "Erreur lors du traitement des données: ..."
    | CommandFailed(code: Option<int>)  // "La commande a échoué avec le code <code>"

  /** A number is truthy when present and non-zero. */
  predicate NumTruthy(n: Option<int>) {
    n.Some? && n.value != 0
  }

  /** `a || d` on an optional number. */
  function NumOr(a: Option<int>, d: int): (r: int)
    ensures NumTruthy(a) ==> r == a.value
    ensures !NumTruthy(a) ==> r == d
  {
    if NumTruthy(a) then a.value else d
  }

  /**
   * `info.filesize || info.filesize_approx || 0`: the exact size when known,
   * else the estimate when known, else 0.
   */
  function Size(rec: Record): (r: int)
    ensures r != 0 <==> NumTruthy(rec.filesize) || NumTruthy(rec.filesizeApprox)
    ensures NumTruthy(rec.filesize) ==> r == rec.filesize.value
    ensures !NumTruthy(rec.filesize) && NumTruthy(rec.filesizeApprox) ==> r == rec.filesizeApprox.value
  {
    NumOr(rec.filesize, NumOr(rec.filesizeApprox, 0))
  }

  /** The vector `getVideoInfo` launches. */
  function VideoInfoArgs(url: string): seq<string> {
    ["--dump-json", "--no-playlist", "--skip-download", url]
  }

  /** The vector `getPlaylistInfo` launches. */
  function PlaylistInfoArgs(url: string): seq<string> {
    ["--dump-json", "--flat-playlist", "--yes-playlist", "--skip-download", url]
  }

  /** The video request asks for the JSON of the one video at `url`, without downloading it. */
  lemma VideoInfoArgsRead(url: string)
    requires PlainUrl(url)
    ensures Interpret(VideoInfoArgs(url))
      == Some(NoSettings.(dumpJson := true, noPlaylist := true, skipDownload := true, urls := [url]))
  {
    var a0 := NoSettings;
    ReadFlag("--dump-json", ["--no-playlist", "--skip-download", url], a0);
    var a1 := SetFlag(a0, "--dump-json");
    ReadFlag("--no-playlist", ["--skip-download", url], a1);
    var a2 := SetFlag(a1, "--no-playlist");
    ReadFlag("--skip-download", [url], a2);
    ReadUrl(url, SetFlag(a2, "--skip-download"));
  }

  /** The playlist request asks for one flat JSON line per entry of the playlist at `url`, without downloading. */
  lemma PlaylistInfoArgsRead(url: string)
    requires PlainUrl(url)
    ensures Interpret(PlaylistInfoArgs(url))
      == Some(NoSettings.(dumpJson := true, flatPlaylist := true, yesPlaylist := true, skipDownload := true,
                          urls := [url]))
  {
    var a0 := NoSettings;
    ReadFlag("--dump-json", ["--flat-playlist", "--yes-playlist", "--skip-download", url], a0);
    var a1 := SetFlag(a0, "--dump-json");
    ReadFlag("--flat-playlist", ["--yes-playlist", "--skip-download", url], a1);
    var a2 := SetFlag(a1, "--flat-playlist");
    ReadFlag("--yes-playlist", ["--skip-download", url], a2);
    var a3 := SetFlag(a2, "--yes-playlist");
    ReadFlag("--skip-download", [url], a3);
    ReadUrl(url, SetFlag(a3, "--skip-download"));
  }

  /** The `VideoInfo` `getVideoInfo` resolves with: no default for the duration, no fallback for the URL. */
  function VideoOf(rec: Record): (r: VideoInfo)
    ensures r.title == rec.title && r.duration == rec.duration && r.url == rec.webpageUrl
    ensures r.filesize == Size(rec)
  {
    VideoInfo(rec.title, rec.duration, Size(rec), rec.webpageUrl)
  }

  /** The `VideoInfo` `getPlaylistInfo` pushes: duration defaults to 0, the URL falls back to `url`. */
  function EntryOf(rec: Record): (r: VideoInfo)
    ensures r.title == rec.title && r.filesize == Size(rec)
    ensures NumTruthy(rec.duration) ==> r.duration == rec.duration
    ensures !NumTruthy(rec.duration) ==> r.duration == Some(0)
    ensures Truthy(rec.webpageUrl) ==> r.url == rec.webpageUrl
    ensures !Truthy(rec.webpageUrl) ==> r.url == rec.url
  {
    VideoInfo(rec.title, Some(NumOr(rec.duration, 0)), Size(rec), Or(rec.webpageUrl, rec.url))
  }

  /**
   * Where the two mappings part: without `webpage_url` the video request has
   * no URL while the playlist entry takes `url`, and without a duration the
   * video request has none while the entry counts 0.
   */
  lemma MappingsDiffer(rec: Record)
    ensures rec.webpageUrl.None? ==> VideoOf(rec).url.None? && EntryOf(rec).url == rec.url
    ensures rec.duration.None? ==> VideoOf(rec).duration.None? && EntryOf(rec).duration == Some(0)
  {
  }

  /** A record carrying exactly a `VideoInfo`'s fields. */
  function RecordOf(v: VideoInfo): Record {
    Record(v.title, v.duration, Some(v.filesize), None, v.url, None, None)
  }

  /** Every `VideoInfo` comes back unchanged from the record holding its fields. */
  lemma VideoOfRecordOf(v: VideoInfo)
    ensures VideoOf(RecordOf(v)) == v
  {
  }

  /**
   * A playlist entry whose duration is present comes back unchanged from its
   * record, unless its URL is "": `webpage_url || url` then gives the missing `url`.
   */
  lemma EntryOfRecordOf(v: VideoInfo)
    requires v.duration.Some? && v.url != Some("")
    ensures EntryOf(RecordOf(v)) == v
  {
  }

  /** The two mappings agree on title and size, and differ at most in the defaults the playlist adds. */
  lemma EntryRefinesVideo(rec: Record)
    ensures EntryOf(rec).title == VideoOf(rec).title && EntryOf(rec).filesize == VideoOf(rec).filesize
    ensures NumTruthy(rec.duration) ==> EntryOf(rec).duration == VideoOf(rec).duration
    ensures Truthy(rec.webpageUrl) ==> EntryOf(rec).url == VideoOf(rec).url
  {
  }

  /** `getVideoInfo`'s `close` handler given the exit code (None for `null`) and everything read from stdout. */
  function GetVideoInfo(code: Option<int>, data: string, decode: string -> Option<Record>): (r: Result<VideoInfo, InfoFailure>)
    ensures r.Success? <==> code == Some(0) && decode(data).Some?
    ensures code != Some(0) ==> r == Failure(CommandFailed(code))
    ensures code == Some(0) && decode(data).None? ==> r == Failure(BadData)
    ensures r.Success? ==> var rec := decode(data).value;
      && r.value.title == rec.title && r.value.duration == rec.duration
      && r.value.filesize == Size(rec) && r.value.url == rec.webpageUrl
  {
    if code != Some(0) then Failure(CommandFailed(code))
    else match decode(data)
      case None => Failure(BadData)
      case Some(rec) => Success(VideoOf(rec))
  }

  /** `data.trim().split("\n")`. */
  function Lines(data: string): (r: seq<string>)
    ensures |r| >= 1 && forall k :: 0 <= k < |r| ==> '\n' !in r[k]
    ensures Join(r, '\n') == Trim(data)
  {
    Split(Trim(data), '\n')
  }

  /** Output that is empty or only white space gives a single empty line, which `JSON.parse` refuses. */
  lemma BlankOutputLines(data: string)
    requires AllSpace(data)
    ensures Lines(data) == [""]
  {
    assert Trim(data) == "";
    assert IndexOf("", '\n').None?;
  }

  /**
   * With a `JSON.parse` that refuses the empty text, blank output rejects
   * both requests as bad data: the playlist sees one empty line.
   */
  lemma BlankOutputRejected(data: string, decode: string -> Option<Record>)
    requires AllSpace(data) && decode("").None?
    ensures exists i :: 0 <= i < |Lines(data)| && decode(Lines(data)[i]).None?
    ensures data == "" ==> GetVideoInfo(Some(0), data, decode) == Failure(BadData)
  {
    BlankOutputLines(data);
    assert decode(Lines(data)[0]).None?;
  }

  /** Every line decoded in order, or None if any line fails. */
  function Decoded(lines: seq<string>, decode: string -> Option<Record>): (r: Option<seq<Record>>)
    decreases |lines|
  {
    if |lines| == 0 then Some([])
    else
      var front :- Decoded(lines[..|lines| - 1], decode);
      var last :- decode(lines[|lines| - 1]);
      Some(front + [last])
  }

  /** The lines decode exactly when each one does, and then record i is line i's. */
  lemma {:induction false} DecodedAll(lines: seq<string>, decode: string -> Option<Record>)
    ensures Decoded(lines, decode).Some? <==> forall i :: 0 <= i < |lines| ==> decode(lines[i]).Some?
    ensures Decoded(lines, decode).Some? ==> var recs := Decoded(lines, decode).value;
      |recs| == |lines| && forall i :: 0 <= i < |lines| ==> recs[i] == decode(lines[i]).value
    decreases |lines|
  {
    if |lines| > 0 {
      var front := lines[..|lines| - 1];
      DecodedAll(front, decode);
      assert forall i :: 0 <= i < |front| ==> front[i] == lines[i];
    }
  }

  /** The first truthy `playlist` field, in record order. */
  function FirstTitle(recs: seq<Record>): (r: Option<string>)
    ensures r.Some? ==> Truthy(r)
    decreases |recs|
  {
    if |recs| == 0 then None
    else
      var t := FirstTitle(recs[..|recs| - 1]);
      if t.Some? then t
      else if Truthy(recs[|recs| - 1].playlist) then recs[|recs| - 1].playlist
      else None
  }

  /** The title found is that of the first record with a truthy `playlist`; none is found when no record has one. */
  lemma {:induction false} FirstTitleIsFirst(recs: seq<Record>)
    ensures FirstTitle(recs).None? <==> forall i :: 0 <= i < |recs| ==> !Truthy(recs[i].playlist)
    ensures FirstTitle(recs).Some? ==>
      exists i :: 0 <= i < |recs| && FirstTitle(recs) == recs[i].playlist && Truthy(recs[i].playlist)
        && forall j :: 0 <= j < i ==> !Truthy(recs[j].playlist)
    decreases |recs|
  {
    if |recs| > 0 {
      var front := recs[..|recs| - 1];
      FirstTitleIsFirst(front);
      assert forall i :: 0 <= i < |front| ==> front[i] == recs[i];
      if FirstTitle(front).None? && FirstTitle(recs).Some? {
        assert FirstTitle(recs) == recs[|recs| - 1].playlist;
      }
    }
  }

  /** Sum of the entries' sizes. */
  function TotalSize(vs: seq<VideoInfo>): int
    decreases |vs|
  {
    if |vs| == 0 then 0 else TotalSize(vs[..|vs| - 1]) + vs[|vs| - 1].filesize
  }

  /** Sum of the entries' durations, a missing one counting 0. */
  function TotalDuration(vs: seq<VideoInfo>): int
    decreases |vs|
  {
    if |vs| == 0 then 0 else TotalDuration(vs[..|vs| - 1]) + vs[|vs| - 1].duration.GetOr(0)
  }

  /** Totals add up over concatenation: a playlist's totals are those of its parts. */
  lemma {:induction false} TotalsAppend(a: seq<VideoInfo>, b: seq<VideoInfo>)
    ensures TotalSize(a + b) == TotalSize(a) + TotalSize(b)
    ensures TotalDuration(a + b) == TotalDuration(a) + TotalDuration(b)
    decreases |b|
  {
    if |b| == 0 {
      assert a + b == a;
    } else {
      var b' := b[..|b| - 1];
      TotalsAppend(a, b');
      assert (a + b)[..|a + b| - 1] == a + b';
      assert (a + b)[|a + b| - 1] == b[|b| - 1];
    }
  }

  /** One more decoded line extends the decoded records by its record. */
  lemma DecodedStep(lines: seq<string>, i: nat, decode: string -> Option<Record>, recs: seq<Record>)
    requires i < |lines| && Decoded(lines[..i], decode) == Some(recs) && decode(lines[i]).Some?
    ensures Decoded(lines[..i + 1], decode) == Some(recs + [decode(lines[i]).value])
  {
    assert lines[..i + 1][..i] == lines[..i];
  }

  /** One more entry adds its size and duration to the totals. */
  lemma TotalsStep(vs: seq<VideoInfo>, v: VideoInfo)
    ensures TotalSize(vs + [v]) == TotalSize(vs) + v.filesize
    ensures TotalDuration(vs + [v]) == TotalDuration(vs) + v.duration.GetOr(0)
  {
    assert (vs + [v])[..|vs|] == vs;
  }

  /** One more record changes the title found only if none was found before. */
  lemma FirstTitleStep(recs: seq<Record>, rec: Record)
    ensures FirstTitle(recs + [rec]) == if FirstTitle(recs).Some? then FirstTitle(recs)
      else if Truthy(rec.playlist) then rec.playlist else None
  {
    assert (recs + [rec])[..|recs|] == recs;
  }

  /** What the resolved playlist says about the lines it was built from. */
  predicate Summarises(p: PlaylistInfo, lines: seq<string>, decode: string -> Option<Record>) {
    && p.videoCount == |p.videos| == |lines|
    && (forall i :: 0 <= i < |lines| ==> decode(lines[i]).Some? && p.videos[i] == EntryOf(decode(lines[i]).value))
    && p.totalSize == TotalSize(p.videos) && p.totalDuration == TotalDuration(p.videos)
    && Decoded(lines, decode).Some? && p.title == FirstTitle(Decoded(lines, decode).value).GetOr("Playlist")
  }

  /** What the loop keeps after `i` lines: their records, their entries, the title found so far and the running totals. */
  predicate Kept(lines: seq<string>, decode: string -> Option<Record>, i: nat, recs: seq<Record>,
                 videos: seq<VideoInfo>, title: string, size: int, duration: int) {
    && i <= |lines|
    && Decoded(lines[..i], decode) == Some(recs) && |recs| == i
    && |videos| == i && (forall k :: 0 <= k < i ==> videos[k] == EntryOf(recs[k]))
    && title == FirstTitle(recs).GetOr("")
    && size == TotalSize(videos) && duration == TotalDuration(videos)
  }

  /** One more line that decodes: the loop body keeps `Kept`. */
  lemma CollectStep(lines: seq<string>, decode: string -> Option<Record>, i: nat, recs: seq<Record>,
                    videos: seq<VideoInfo>, title: string, size: int, duration: int)
    requires Kept(lines, decode, i, recs, videos, title, size, duration)
    requires i < |lines| && decode(lines[i]).Some?
    ensures var rec := decode(lines[i]).value;
      Kept(lines, decode, i + 1, recs + [rec], videos + [EntryOf(rec)],
           if title == "" && Truthy(rec.playlist) then rec.playlist.value else title,
           size + Size(rec), duration + NumOr(rec.duration, 0))
  {
    var rec := decode(lines[i]).value;
    DecodedStep(lines, i, decode, recs);
    FirstTitleStep(recs, rec);
    TotalsStep(videos, EntryOf(rec));
  }

  /** The loop over the lines in `getPlaylistInfo`'s `try` block: None where `JSON.parse` throws. */
  method Collect(lines: seq<string>, decode: string -> Option<Record>) returns (r: Option<PlaylistInfo>)
    ensures r.Some? <==> forall i :: 0 <= i < |lines| ==> decode(lines[i]).Some?
    ensures r.Some? ==> Summarises(r.value, lines, decode)
  {
    var videos: seq<VideoInfo> := [];
    var playlistTitle := "";
    var totalSize := 0;
    var totalDuration := 0;
    ghost var recs: seq<Record> := [];
    var i := 0;
    while i < |lines|
      invariant Kept(lines, decode, i, recs, videos, playlistTitle, totalSize, totalDuration)
    {
      var info := decode(lines[i]);
      if info.None? {
        DecodedAll(lines, decode);
        return None;
      }
      var rec := info.value;
      CollectStep(lines, decode, i, recs, videos, playlistTitle, totalSize, totalDuration);
      if playlistTitle == "" && Truthy(rec.playlist) {
        playlistTitle := rec.playlist.value;
      }
      videos := videos + [EntryOf(rec)];
      totalDuration := totalDuration + NumOr(rec.duration, 0);
      totalSize := totalSize + Size(rec);
      recs := recs + [rec];
      i := i + 1;
    }
    assert lines[..i] == lines;
    DecodedAll(lines, decode);
    var title := if playlistTitle != "" then playlistTitle else "Playlist";
    return Some(PlaylistInfo(title, |videos|, totalSize, totalDuration, videos));
  }

  /** `getPlaylistInfo`'s `close` handler given the exit code (None for `null`) and everything read from stdout. */
  method GetPlaylistInfo(code: Option<int>, data: string, decode: string -> Option<Record>)
    returns (r: Result<PlaylistInfo, InfoFailure>)
    ensures code != Some(0) ==> r == Failure(CommandFailed(code))
    ensures code == Some(0) ==> (r.Success? <==> forall i :: 0 <= i < |Lines(data)| ==> decode(Lines(data)[i]).Some?)
    ensures code == Some(0) && r.Failure? ==> r.error == BadData
    ensures r.Success? ==> Summarises(r.value, Lines(data), decode)
  {
    if code != Some(0) {
      return Failure(CommandFailed(code));
    }
    var collected := Collect(Lines(data), decode);
    match collected
    case None => return Failure(BadData);
    case Some(p) => return Success(p);
  }
}
