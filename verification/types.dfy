/**
 * The records the downloader passes around (src/types/index.ts), the
 * JavaScript `a || b` idiom the program uses for defaults, and the constant
 * output templates and defaults shared by both downloader variants.
 */
module Types {
  import opened Wrappers

  /** Options for one download. `verbose` only switches logging, which is not modelled. */
  datatype DownloadOptions = DownloadOptions(
    resolution: Option<string>,
    outputDir: Option<string>,
    format: Option<string>,
    verbose: Option<bool>,
    limit: Option<int>,   // None also stands for NaN, the other falsy value `parseInt` can give
    audioQuality: Option<string>,
    videoQuality: Option<string>
  )

  /** `{}`, the default options argument. */
  const NoOptions := DownloadOptions(None, None, None, None, None, None, None)

  /** One video's metadata. `title`, `duration` and `url` may be missing in the decoded record. */
  datatype VideoInfo = VideoInfo(title: Option<string>, duration: Option<int>, filesize: int, url: Option<string>)

  datatype PlaylistInfo = PlaylistInfo(
    title: string,
    videoCount: nat,
    totalSize: int,
    totalDuration: int,
    videos: seq<VideoInfo>
  )

  /** A string is truthy when present and non-empty. */
  predicate Truthy(s: Option<string>) {
    s.Some? && s.value != ""
  }

  /** `a || b` on optional strings: `a` when truthy, otherwise `b`, whatever `b` is. */
  function Or(a: Option<string>, b: Option<string>): (r: Option<string>)
    ensures Truthy(a) ==> r == a
    ensures !Truthy(a) ==> r == b
  {
    if Truthy(a) then a else b
  }

  /** `a || d` with a string default. */
  function OrDefault(a: Option<string>, d: string): (r: string)
    ensures Truthy(a) ==> r == a.value
    ensures !Truthy(a) ==> r == d
  {
    if Truthy(a) then a.value else d
  }

  /** `path.join(dir, name)`, without the normalisation of `.`, `..` and repeated separators. */
  function JoinPath(dir: string, name: string): string {
    dir + "/" + name
  }

  /** `options.limit && options.limit > 0`. */
  predicate HasLimit(o: DownloadOptions) {
    o.limit.Some? && o.limit.value > 0
  }

  /** The positive limit, when there is one. */
  function Limit(o: DownloadOptions): (r: Option<nat>)
    ensures r.Some? <==> HasLimit(o)
    ensures r.Some? ==> r.value == o.limit.value
  {
    if HasLimit(o) then Some(o.limit.value) else None
  }

  /** `path.join(options.outputDir || "downloads", template)`. */
  function OutputTemplate(o: DownloadOptions, template: string): string {
    JoinPath(OrDefault(o.outputDir, DefaultOutputDir), template)
  }

  const DefaultOutputDir := "downloads"
  const DefaultContainer := "mp4"
  const VideoTemplate := "%(title)s.%(ext)s"
  const PlaylistTemplate := "%(playlist)s/%(playlist_index)s - %(title)s.%(ext)s"
}
