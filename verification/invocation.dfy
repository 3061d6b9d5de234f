/**
 * How yt-dlp reads the argument vectors the downloader builds, restricted to
 * the options the downloader passes. The reading is the partner of the
 * argument builders of both downloader variants: each builder's vector reads
 * back to the template, selector, container, flags, item range and URL it
 * was built from.
 */
module Invocation {
  import opened Wrappers
  import opened Text

  /** The settings an argument vector gives yt-dlp. */
  datatype Invocation = Invocation(
    newline: bool,               // --newline
    output: Option<string>,      // -o TEMPLATE
    format: Option<string>,      // -f SELECTOR
    mergeFormat: Option<string>, // --merge-output-format CONTAINER
    consoleTitle: bool,          // --console-title
    yesPlaylist: bool,           // --yes-playlist
    items: Option<string>,       // --playlist-items RANGE
    dumpJson: bool,              // --dump-json
    noPlaylist: bool,            // --no-playlist
    skipDownload: bool,          // --skip-download
    flatPlaylist: bool,          // --flat-playlist
    urls: seq<string>            // positional arguments
  )

  const NoSettings := Invocation(false, None, None, None, false, false, None, false, false, false, false, [])

  /** Options that take the next argument as their value. */
  predicate TakesValue(a: string) {
    a == "-o" || a == "-f" || a == "--merge-output-format" || a == "--playlist-items"
  }

  /** Options that are switched on by their presence. */
  predicate IsFlag(a: string) {
    || a == "--newline" || a == "--console-title" || a == "--yes-playlist"
    || a == "--dump-json" || a == "--no-playlist" || a == "--skip-download" || a == "--flat-playlist"
  }

  predicate LooksLikeOption(a: string) {
    |a| > 0 && a[0] == '-'
  }

  function SetValue(acc: Invocation, option: string, value: string): (r: Invocation)
    requires TakesValue(option)
    ensures r.urls == acc.urls
  {
    if option == "-o" then acc.(output := Some(value))
    else if option == "-f" then acc.(format := Some(value))
    else if option == "--merge-output-format" then acc.(mergeFormat := Some(value))
    else acc.(items := Some(value))
  }

  function SetFlag(acc: Invocation, flag: string): (r: Invocation)
    requires IsFlag(flag)
    ensures r.urls == acc.urls
  {
    if flag == "--newline" then acc.(newline := true)
    else if flag == "--console-title" then acc.(consoleTitle := true)
    else if flag == "--yes-playlist" then acc.(yesPlaylist := true)
    else if flag == "--dump-json" then acc.(dumpJson := true)
    else if flag == "--no-playlist" then acc.(noPlaylist := true)
    else if flag == "--skip-download" then acc.(skipDownload := true)
    else acc.(flatPlaylist := true)
  }

  /**
   * Reads `args` left to right into `acc`: a flag switches its setting on, an
   * option with a value takes the next argument (a later one wins), an
   * argument not starting with '-' is a URL, and anything else (an unknown
   * option, a value missing at the end) is refused.
   */
  function Read(args: seq<string>, acc: Invocation): (r: Option<Invocation>)
    ensures r.Some? ==> |r.value.urls| >= |acc.urls| && r.value.urls[..|acc.urls|] == acc.urls
    decreases |args|
  {
    if |args| == 0 then Some(acc)
    else
      var a := args[0];
      if IsFlag(a) then Read(args[1..], SetFlag(acc, a))
      else if TakesValue(a) then
        if |args| < 2 then None else Read(args[2..], SetValue(acc, a, args[1]))
      else if LooksLikeOption(a) then None
      else
        var r := Read(args[1..], acc.(urls := acc.urls + [a]));
        assert r.Some? ==> r.value.urls[..|acc.urls|] == r.value.urls[..|acc.urls| + 1][..|acc.urls|];
        r
  }

  function Interpret(args: seq<string>): Option<Invocation> {
    Read(args, NoSettings)
  }

  /** The `--playlist-items` range of the first `n` items. */
  function RangeText(n: nat): string {
    "1-" + NatToString(n)
  }

  /** Reads a range `1-N`, N written as `String` writes a number. */
  function ReadRange(s: string): (r: Option<nat>)
    ensures r.Some? ==> RangeText(r.value) == s
  {
    var t :- Lit(s, "1-");
    if Canonical(t) then
      NatToStringOfValue(t);
      Some(DigitsValue(t))
    else None
  }

  lemma ReadRangeText(n: nat)
    ensures ReadRange(RangeText(n)) == Some(n)
  {
    LitOfConcat("1-", NatToString(n));
  }

  /** A URL is read as one when it does not start with '-'. */
  predicate PlainUrl(url: string) {
    !LooksLikeOption(url)
  }

  lemma ReadFlag(flag: string, rest: seq<string>, acc: Invocation)
    requires IsFlag(flag)
    ensures Read([flag] + rest, acc) == Read(rest, SetFlag(acc, flag))
  {
    assert ([flag] + rest)[1..] == rest;
  }

  lemma ReadOption(option: string, value: string, rest: seq<string>, acc: Invocation)
    requires TakesValue(option)
    ensures Read([option, value] + rest, acc) == Read(rest, SetValue(acc, option, value))
  {
    assert ([option, value] + rest)[2..] == rest;
  }

  lemma ReadUrl(url: string, acc: Invocation)
    requires PlainUrl(url)
    ensures Read([url], acc) == Some(acc.(urls := acc.urls + [url]))
  {
    assert !IsFlag(url) && !TakesValue(url);
    assert [url][1..] == [];
  }

  /** The eight arguments every vector the downloader builds starts with. */
  function BaseArgs(output: string, selector: string, container: string): seq<string> {
    ["--newline", "-o", output, "-f", selector, "--merge-output-format", container, "--console-title"]
  }

  /** The eight base arguments read as the flags and values they name, whatever follows them. */
  lemma BaseArgsRead(output: string, selector: string, container: string, rest: seq<string>, acc: Invocation)
    ensures Read(BaseArgs(output, selector, container) + rest, acc)
      == Read(rest, acc.(newline := true, output := Some(output), format := Some(selector),
                         mergeFormat := Some(container), consoleTitle := true))
  {
    var r4 := ["--console-title"] + rest;
    var r3 := ["--merge-output-format", container] + r4;
    var r2 := ["-f", selector] + r3;
    var r1 := ["-o", output] + r2;
    assert BaseArgs(output, selector, container) + rest == ["--newline"] + r1;
    ReadFlag("--newline", r1, acc);
    var a1 := SetFlag(acc, "--newline");
    ReadOption("-o", output, r2, a1);
    var a2 := SetValue(a1, "-o", output);
    ReadOption("-f", selector, r3, a2);
    var a3 := SetValue(a2, "-f", selector);
    ReadOption("--merge-output-format", container, r4, a3);
    var a4 := SetValue(a3, "--merge-output-format", container);
    ReadFlag("--console-title", rest, a4);
  }

  /** The settings of a vector built from the base arguments, the playlist flag, an optional range and a URL. */
  function Settings(output: string, selector: string, container: string, playlist: bool,
                    items: Option<string>, url: string): Invocation {
    NoSettings.(newline := true, output := Some(output), format := Some(selector), mergeFormat := Some(container),
      consoleTitle := true, yesPlaylist := playlist, items := items, urls := [url])
  }

  /** A single-video vector: the base arguments and the URL. */
  function VideoVector(output: string, selector: string, container: string, url: string): (r: seq<string>)
    ensures |r| == 9 && r[8] == url
    ensures r[1] == "-o" && r[2] == output && r[3] == "-f" && r[4] == selector
    ensures r[5] == "--merge-output-format" && r[6] == container
  {
    BaseArgs(output, selector, container) + [url]
  }

  /** A single-video vector reads back to its settings. */
  lemma VideoVectorRead(output: string, selector: string, container: string, url: string)
    requires PlainUrl(url)
    ensures Interpret(VideoVector(output, selector, container, url))
      == Some(Settings(output, selector, container, false, None, url))
  {
    BaseArgsRead(output, selector, container, [url], NoSettings);
    ReadUrl(url, NoSettings.(newline := true, output := Some(output), format := Some(selector),
      mergeFormat := Some(container), consoleTitle := true));
  }

  /**
   * A URL starting with '-' is read as an option, since no `--` comes before
   * it: the single-video vector is refused unless the URL is a flag the
   * reader knows, and then the flag is set and the vector holds no URL.
   */
  lemma OptionUrlRead(output: string, selector: string, container: string, url: string)
    requires LooksLikeOption(url)
    ensures var r := Interpret(VideoVector(output, selector, container, url));
      && (r.Some? <==> IsFlag(url))
      && (r.Some? ==> r.value.urls == [])
      && (url == "--yes-playlist" ==> r.Some? && r.value.yesPlaylist)
  {
    BaseArgsRead(output, selector, container, [url], NoSettings);
    assert [url][1..] == [];
  }

  /** A playlist vector: the base arguments, the playlist flag, the range of the first `limit` items when given, and the URL. */
  function PlaylistVector(output: string, selector: string, container: string, limit: Option<nat>, url: string)
    : (r: seq<string>)
    ensures |r| == (if limit.Some? then 12 else 10) && r[|r| - 1] == url
    ensures r[2] == output && r[4] == selector && r[6] == container && r[8] == "--yes-playlist"
    ensures limit.Some? ==> r[9] == "--playlist-items" && r[10] == RangeText(limit.value)
  {
    var head := BaseArgs(output, selector, container) + ["--yes-playlist"];
    if limit.Some? then head + ["--playlist-items", RangeText(limit.value), url] else head + [url]
  }

  /** A playlist vector reads back to its settings, the range present exactly when the limit is. */
  lemma PlaylistVectorRead(output: string, selector: string, container: string, limit: Option<nat>, url: string)
    requires PlainUrl(url)
    ensures Interpret(PlaylistVector(output, selector, container, limit, url))
      == Some(Settings(output, selector, container, true,
                       if limit.Some? then Some(RangeText(limit.value)) else None, url))
  {
    var acc := NoSettings.(newline := true, output := Some(output), format := Some(selector),
      mergeFormat := Some(container), consoleTitle := true);
    var items := if limit.Some? then ["--playlist-items", RangeText(limit.value)] else [];
    var rest := ["--yes-playlist"] + (items + [url]);
    assert PlaylistVector(output, selector, container, limit, url) == BaseArgs(output, selector, container) + rest;
    BaseArgsRead(output, selector, container, rest, NoSettings);
    ReadFlag("--yes-playlist", items + [url], acc);
    var acc2 := SetFlag(acc, "--yes-playlist");
    if limit.Some? {
      ReadOption("--playlist-items", RangeText(limit.value), [url], acc2);
      ReadUrl(url, SetValue(acc2, "--playlist-items", RangeText(limit.value)));
    } else {
      assert items + [url] == [url];
      ReadUrl(url, acc2);
    }
  }
}
