/**
 * What the two downloader variants share around a run of yt-dlp: the checks
 * `downloadVideo` and `downloadPlaylist` make before anything is launched
 * (`validateInputs`, `checkDependencies`, `prepareOutputDirectory`), the ways
 * a download fails, and how a run ends. The ffmpeg probe and `fs.mkdir` are
 * outside the model: their answers are the fields of `Env`.
 */
module Orchestration {
  import opened Wrappers
  import opened Types
  import opened Progress

  /** Why a download's promise is rejected; each case is one `Error` the services throw. */
  datatype Failure =
    | InvalidUrl                         // "URL invalide ou manquante"
    | MissingFfmpeg                      // "FFmpeg n'est pas installé. ..."
    | DirectoryError(dir: string)        // "Impossible de créer le répertoire <dir>: ..."
    | DownloadFailed(code: Option<int>)  // "Téléchargement échoué avec le code <code>"; None is a `null` code
    | LaunchError                        // "Erreur lors du lancement de yt-dlp: ..."

  /** How the promise settles: resolved with a path (None for `resolve()` with no value) or rejected. */
  datatype Outcome = Resolved(value: Option<string>) | Rejected(failure: Failure)

  /** The event that settles a run: the child's `close` with its exit code, or its `error`. */
  datatype Terminal = Close(code: Option<int>) | SpawnError

  /** What a download does outside the process, in order. */
  datatype Effect = ProbeFfmpeg | MakeDirectory(path: string) | Launch(args: seq<string>)

  /** The answers of the environment: is ffmpeg installed, does creating the directory succeed. */
  datatype Env = Env(ffmpegPresent: bool, mkdirSucceeds: bool)

  /** A download seen from outside: how it settled, the display afterwards, and what it did. */
  datatype Session = Session(outcome: Outcome, display: Display, effects: seq<Effect>)

  /**
   * The directory `prepareOutputDirectory` creates. Its parameter default
   * replaces only a missing value, so an empty `outputDir` is passed on as
   * "" (while the output template uses `outputDir || "downloads"`).
   */
  function MkdirTarget(outputDir: Option<string>): (r: string)
    ensures outputDir.None? ==> r == DefaultOutputDir
    ensures outputDir.Some? ==> r == outputDir.value
  {
    outputDir.GetOr(DefaultOutputDir)
  }

  /** The effects of a download whose checks all pass, before the launch. */
  function CheckEffects(outputDir: Option<string>): seq<Effect> {
    [ProbeFfmpeg, MakeDirectory(MkdirTarget(outputDir))]
  }

  /**
   * The three checks in order, each failure stopping everything after it:
   * the first failure (None when all pass) and the effects performed.
   */
  function Preflight(env: Env, url: string, outputDir: Option<string>): (r: (Option<Failure>, seq<Effect>))
    ensures r.1 <= CheckEffects(outputDir)
    ensures r.0.None? <==> url != "" && env.ffmpegPresent && env.mkdirSucceeds
    ensures r.0.None? ==> r.1 == CheckEffects(outputDir)
    ensures r.0 == Some(InvalidUrl) <==> url == ""
    ensures r.0 == Some(InvalidUrl) ==> r.1 == []
    ensures r.0 == Some(MissingFfmpeg) <==> url != "" && !env.ffmpegPresent
    ensures r.0 == Some(MissingFfmpeg) ==> r.1 == [ProbeFfmpeg]
    ensures r.0.Some? && r.0.value.DirectoryError? <==> url != "" && env.ffmpegPresent && !env.mkdirSucceeds
    ensures r.0.Some? && r.0.value.DirectoryError? ==> r.0.value.dir == MkdirTarget(outputDir) && r.1 == CheckEffects(outputDir)
  {
    if url == "" then (Some(InvalidUrl), [])
    else if !env.ffmpegPresent then (Some(MissingFfmpeg), [ProbeFfmpeg])
    else
      var dir := MkdirTarget(outputDir);
      if !env.mkdirSucceeds then (Some(DirectoryError(dir)), [ProbeFfmpeg, MakeDirectory(dir)])
      else (None, [ProbeFfmpeg, MakeDirectory(dir)])
  }

  /** How the `close` and `error` handlers settle a run, given what a successful run resolves with. */
  function Settle(t: Terminal, onSuccess: Option<string>): (r: Outcome)
    ensures r.Resolved? <==> t == Close(Some(0))
    ensures r.Resolved? ==> r.value == onSuccess
    ensures t.SpawnError? ==> r == Rejected(LaunchError)
    ensures t.Close? && t.code != Some(0) ==> r == Rejected(DownloadFailed(t.code))
  {
    match t
    case Close(code) => if code == Some(0) then Resolved(onSuccess) else Rejected(DownloadFailed(code))
    case SpawnError => Rejected(LaunchError)
  }

  /** The session of a download whose checks failed: nothing was launched and the display was not touched. */
  function Refused(f: Failure, d: Display, effects: seq<Effect>): Session {
    Session(Rejected(f), d, effects)
  }

  predicate Launched(s: Session) {
    exists i :: 0 <= i < |s.effects| && s.effects[i].Launch?
  }
}
