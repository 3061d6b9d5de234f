/**
 * The yt-dlp format selector that `buildFormatString` of
 * src/services/downloader.ts writes from a video quality and an audio
 * quality, and, as its partner, a reader of the selectors it writes that
 * recovers which video and which audio stream they ask for.
 */
module FormatSelector {
  import opened Wrappers
  import opened Text
  import opened Types

  /** `/^\d+$/.test(q)`: non-empty and decimal digits only. */
  predicate IsNumber(q: string) {
    |q| >= 1 && AllDigits(q)
  }

  /** Which video stream a selector asks for. */
  datatype VideoPick = BestVideo | WorstVideo | HeightAtMost(height: string)

  /** Which audio stream a selector asks for. */
  datatype AudioPick = BestAudio | WorstAudio | BitrateAtLeast(kbps: string)

  datatype Choice = Choice(video: VideoPick, audio: AudioPick)

  /** What a video quality asks for: "worst", a height in pixels, or (anything else) the best. */
  function VideoRequest(vq: Option<string>): VideoPick {
    match vq
    case None => BestVideo
    case Some(q) =>
      if q == "worst" then WorstVideo
      else if IsNumber(q) then HeightAtMost(q)
      else BestVideo
  }

  /** What an audio quality asks for: "worstaudio", a bitrate `<n>k` (the first 'k' dropped), or the best. */
  function AudioRequest(aq: Option<string>): AudioPick {
    match aq
    case None => BestAudio
    case Some(q) =>
      if q == "worstaudio" then WorstAudio
      else if EndsWith(q, "k") then BitrateAtLeast(RemoveFirst(q, 'k'))
      else BestAudio
  }

  const HeightFilter := "[height<=?"
  const BitrateFilter := "[abr>=?"

  /** The selector text of one video pick. */
  function VideoText(v: VideoPick): string {
    match v
    case BestVideo => "bv*"
    case WorstVideo => "wv*"
    case HeightAtMost(h) => "bv*" + HeightFilter + h + "]"
  }

  /** The selector text of one audio pick. */
  function AudioText(a: AudioPick): string {
    match a
    case BestAudio => "ba*"
    case WorstAudio => "wa*"
    case BitrateAtLeast(k) => "ba*" + BitrateFilter + k + "]"
  }

  /** "best" and "worst" are words, not numbers. */
  lemma WordsAreNotNumbers()
    ensures !IsNumber("best") && !IsNumber("worst")
  {
    assert !IsDigit("best"[0]) && !IsDigit("worst"[0]);
  }

  /** The video half of a general selector (src/services/downloader.ts:87-92). */
  function VideoSelector(vq: Option<string>): (r: string)
    ensures r == VideoText(VideoRequest(vq))
  {
    WordsAreNotNumbers();
    if Truthy(vq) && vq.value != "best" && IsNumber(vq.value) then
      "bv*" + HeightFilter + vq.value + "]"
    else if vq == Some("worst") then
      "wv*"
    else
      "bv*"
  }

  /** The audio half of a general selector (src/services/downloader.ts:94-99). */
  function AudioSelector(aq: Option<string>): (r: string)
    ensures r == AudioText(AudioRequest(aq))
  {
    if Truthy(aq) && aq.value != "best" && EndsWith(aq.value, "k") then
      "ba*" + BitrateFilter + RemoveFirst(aq.value, 'k') + "]"
    else if aq == Some("worstaudio") then
      "wa*"
    else
      "ba*"
  }

  /** A general selector starts with "bv*", so it is none of the four fixed ones. */
  lemma GeneralNotFixed(v: VideoPick, a: AudioPick)
    requires !v.WorstVideo?
    ensures var s := VideoText(v) + "+" + AudioText(a) + "/" + VideoText(v) + "/best";
      s != "worst" && s != "worstvideo+bestaudio/worst" && s != "bestvideo+worstaudio/best"
      && s != "bestvideo+bestaudio/best"
  {
    var s := VideoText(v) + "+" + AudioText(a) + "/" + VideoText(v) + "/best";
    assert s[0] == 'b' && s[1] == 'v';
  }

  /** Only the best video is written "bv*" and only the best audio "ba*". */
  lemma BestTexts(v: VideoPick, a: AudioPick)
    ensures VideoText(v) == "bv*" <==> v == BestVideo
    ensures AudioText(a) == "ba*" <==> a == BestAudio
  {
    if v.HeightAtMost? {
      assert |VideoText(v)| > 3;
    }
    if a.BitrateAtLeast? {
      assert |AudioText(a)| > 3;
    }
  }

  /**
   * `buildFormatString(vq, aq)`: three early returns, then the general
   * selector, which collapses to "bestvideo+bestaudio/best" exactly when
   * neither quality asks for anything but the best.
   */
  function BuildFormatString(vq: Option<string>, aq: Option<string>): (r: string)
    ensures vq == Some("worst") && aq == Some("worstaudio") ==> r == "worst"
    ensures vq == Some("worst") && aq != Some("worstaudio") ==> r == "worstvideo+bestaudio/worst"
    ensures vq != Some("worst") && aq == Some("worstaudio") ==> r == "bestvideo+worstaudio/best"
    ensures vq != Some("worst") && aq != Some("worstaudio") ==>
      (r == "bestvideo+bestaudio/best" <==> VideoRequest(vq) == BestVideo && AudioRequest(aq) == BestAudio)
  {
    if vq == Some("worst") && aq == Some("worstaudio") then "worst"
    else if vq == Some("worst") then "worstvideo+bestaudio/worst"
    else if aq == Some("worstaudio") then "bestvideo+worstaudio/best"
    else
      var v := VideoSelector(vq);
      var a := AudioSelector(aq);
      BestTexts(VideoRequest(vq), AudioRequest(aq));
      if v == "bv*" && a == "ba*" then "bestvideo+bestaudio/best"
      else
        GeneralNotFixed(VideoRequest(vq), AudioRequest(aq));
        v + "+" + a + "/" + v + "/best"
  }

  /** The quality the selector is built from: `videoQuality || resolution`. */
  function VideoQuality(o: DownloadOptions): (r: Option<string>)
    ensures Truthy(o.videoQuality) ==> r == o.videoQuality
    ensures !Truthy(o.videoQuality) ==> r == o.resolution
  {
    Or(o.videoQuality, o.resolution)
  }

  /** The format selector both argument builders of src/services/downloader.ts pass after `-f`. */
  function OptionsSelector(o: DownloadOptions): string {
    BuildFormatString(VideoQuality(o), o.audioQuality)
  }

  /** Text that reads as `bv*`, the height filter, a height and `]` is that pick's selector text. */
  lemma HeightTextOf(t: string, t1: string, h: string, t2: string)
    requires t == "bv*" + t1 && StartsWith(t1, HeightFilter)
    requires t1[|HeightFilter|..] == h + ("]" + t2)
    ensures t == VideoText(HeightAtMost(h)) + t2
  {
    assert t1 == t1[..|HeightFilter|] + t1[|HeightFilter|..];
    assert t1 == HeightFilter + (h + ("]" + t2));
  }

  /** Reads `bv*` or `bv*[height<=?N]` at the front of `t`, and what follows it. */
  function ReadVideo(t: string): (r: Option<(VideoPick, string)>)
    ensures r.Some? ==> t == VideoText(r.value.0) + r.value.1
    ensures r.Some? ==> r.value.0.BestVideo? || (r.value.0.HeightAtMost? && IsNumber(r.value.0.height))
  {
    var t1 :- Lit(t, "bv*");
    if StartsWith(t1, HeightFilter) then
      var d :- Plus(t1[|HeightFilter|..], IsDigit);
      var t2 :- Lit(d.1, "]");
      HeightTextOf(t, t1, d.0, t2);
      Some((HeightAtMost(d.0), t2))
    else
      Some((BestVideo, t1))
  }

  /** Reads a whole audio selector `ba*` or `ba*[abr>=?X]`. */
  function ReadAudio(a: string): (r: Option<AudioPick>)
    ensures r.Some? ==> AudioText(r.value) == a
  {
    if a == "ba*" then Some(BestAudio)
    else if |a| >= 11 && StartsWith(a, "ba*" + BitrateFilter) && a[|a| - 1] == ']' then
      var k := a[10..|a| - 1];
      assert a == "ba*" + BitrateFilter + k + "]";
      Some(BitrateAtLeast(k))
    else None
  }

  /**
   * Reads a selector of the shapes `BuildFormatString` writes: one of the
   * four fixed ones, or `V+A/V/best` with the same video selector V twice.
   */
  function ReadSelector(s: string): (r: Option<Choice>) {
    if s == "worst" then Some(Choice(WorstVideo, WorstAudio))
    else if s == "worstvideo+bestaudio/worst" then Some(Choice(WorstVideo, BestAudio))
    else if s == "bestvideo+worstaudio/best" then Some(Choice(BestVideo, WorstAudio))
    else if s == "bestvideo+bestaudio/best" then Some(Choice(BestVideo, BestAudio))
    else
      var v :- ReadVideo(s);
      var t :- Lit(v.1, "+");
      var suffix := "/" + VideoText(v.0) + "/best";
      if EndsWith(t, suffix) then
        var a :- ReadAudio(t[..|t| - |suffix|]);
        Some(Choice(v.0, a))
      else
        None
  }
}

/** What the selectors `BuildFormatString` writes ask yt-dlp for. */
module FormatSelectorFacts {
  import opened Wrappers
  import opened Text
  import opened FormatSelector

  lemma ReadBestVideoText(rest: string)
    requires |rest| > 0 ==> rest[0] == '+'
    ensures ReadVideo(VideoText(BestVideo) + rest) == Some((BestVideo, rest))
  {
    LitOfConcat("bv*", rest);
    assert !StartsWith(rest, HeightFilter);
  }

  lemma ReadHeightText(h: string, rest: string)
    requires IsNumber(h)
    ensures ReadVideo(VideoText(HeightAtMost(h)) + rest) == Some((HeightAtMost(h), rest))
  {
    var t2 := h + ("]" + rest);
    var t1 := HeightFilter + t2;
    assert VideoText(HeightAtMost(h)) + rest == "bv*" + t1;
    LitOfConcat("bv*", t1);
    LitOfConcat(HeightFilter, t2);
    PlusOf(h, "]" + rest, IsDigit);
    LitOfConcat("]", rest);
  }

  lemma ReadVideoText(v: VideoPick, rest: string)
    requires v.BestVideo? || (v.HeightAtMost? && IsNumber(v.height))
    requires |rest| > 0 ==> rest[0] == '+'
    ensures ReadVideo(VideoText(v) + rest) == Some((v, rest))
  {
    if v.BestVideo? {
      ReadBestVideoText(rest);
    } else {
      ReadHeightText(v.height, rest);
    }
  }

  lemma ReadAudioText(a: AudioPick)
    requires !a.WorstAudio?
    ensures ReadAudio(AudioText(a)) == Some(a)
  {
    match a
    case BestAudio =>
    case BitrateAtLeast(k) =>
      var t := AudioText(a);
      assert t[..10] == "ba*" + BitrateFilter;
      assert t[10..|t| - 1] == k;
  }

  /** Every general selector reads back to the picks it was written from. */
  lemma ReadGeneral(v: VideoPick, a: AudioPick)
    requires v.BestVideo? || (v.HeightAtMost? && IsNumber(v.height))
    requires !a.WorstAudio?
    ensures ReadSelector(VideoText(v) + "+" + AudioText(a) + "/" + VideoText(v) + "/best") == Some(Choice(v, a))
  {
    var vt := VideoText(v);
    var at := AudioText(a);
    var suffix := "/" + vt + "/best";
    var s := vt + "+" + at + "/" + vt + "/best";
    GeneralNotFixed(v, a);
    assert s == vt + ("+" + (at + suffix));
    ReadVideoText(v, "+" + (at + suffix));
    LitOfConcat("+", at + suffix);
    var t := at + suffix;
    assert t[|t| - |suffix|..] == suffix;
    assert t[..|t| - |suffix|] == at;
    ReadAudioText(a);
  }

  /** With neither "worst" request, the selector asks for exactly the requested video and audio. */
  lemma SelectorHonoursRequest(vq: Option<string>, aq: Option<string>)
    requires VideoRequest(vq) != WorstVideo && AudioRequest(aq) != WorstAudio
    ensures ReadSelector(BuildFormatString(vq, aq)) == Some(Choice(VideoRequest(vq), AudioRequest(aq)))
  {
    var v := VideoRequest(vq);
    var a := AudioRequest(aq);
    assert vq != Some("worst") && aq != Some("worstaudio");
    if v == BestVideo && a == BestAudio {
      assert BuildFormatString(vq, aq) == "bestvideo+bestaudio/best";
    } else {
      assert VideoSelector(vq) != "bv*" || AudioSelector(aq) != "ba*";
      ReadGeneral(v, a);
    }
  }

  /** Asking for the worst video overrides any audio request except "worstaudio". */
  lemma WorstVideoDropsAudioRequest(vq: Option<string>, aq: Option<string>)
    requires VideoRequest(vq) == WorstVideo
    ensures ReadSelector(BuildFormatString(vq, aq))
      == Some(Choice(WorstVideo, if AudioRequest(aq) == WorstAudio then WorstAudio else BestAudio))
  {
  }

  /** Asking for the worst audio overrides any height the video quality asks for. */
  lemma WorstAudioDropsHeight(vq: Option<string>, aq: Option<string>)
    requires VideoRequest(vq) != WorstVideo && AudioRequest(aq) == WorstAudio
    ensures ReadSelector(BuildFormatString(vq, aq)) == Some(Choice(BestVideo, WorstAudio))
  {
    assert vq != Some("worst");
  }

  /** The "wv*" and "wa*" branches of the general case can never be taken: the early returns catch both. */
  lemma WorstSelectorsUnreachable(vq: Option<string>, aq: Option<string>)
    requires vq != Some("worst") && aq != Some("worstaudio")
    ensures VideoSelector(vq) != "wv*" && AudioSelector(aq) != "wa*"
  {
  }

  /** Past the early returns and the collapse rule, the selector is `V+A/V/best`. */
  lemma GeneralShape(vq: Option<string>, aq: Option<string>)
    requires vq != Some("worst") && aq != Some("worstaudio")
    requires VideoSelector(vq) != "bv*" || AudioSelector(aq) != "ba*"
    ensures BuildFormatString(vq, aq)
      == VideoSelector(vq) + "+" + AudioSelector(aq) + "/" + VideoSelector(vq) + "/best"
  {
  }

  /** A numeric quality alone: at most that many pixels high, falling back to the same video alone. */
  lemma HeightOnly(q: string)
    requires IsNumber(q)
    ensures var v := "bv*[height<=?" + q + "]";
      BuildFormatString(Some(q), None) == v + "+" + "ba*" + "/" + v + "/best"
  {
    var v := "bv*[height<=?" + q + "]";
    assert VideoSelector(Some(q)) == v by {
      WordsAreNotNumbers();
      assert q != "best" && q != "worst" && q != "";
      assert VideoRequest(Some(q)) == HeightAtMost(q);
      assert "bv*" + HeightFilter + q + "]" == v;
    }
    assert AudioSelector(None) == "ba*";
    assert v != "bv*" by {
      assert |v| > 3;
    }
    GeneralShape(Some(q), None);
  }

  /** A bitrate quality alone ("128k"): at least that bitrate, the first 'k' dropped. */
  lemma BitrateOnly(q: string)
    requires EndsWith(q, "k")
    ensures var a := "ba*[abr>=?" + RemoveFirst(q, 'k') + "]";
      BuildFormatString(None, Some(q)) == "bv*" + "+" + a + "/" + "bv*" + "/best"
  {
    var k := RemoveFirst(q, 'k');
    var a := "ba*[abr>=?" + k + "]";
    assert q != "worstaudio" && q != "best" && q != "" by {
      assert q[|q| - 1] == 'k';
    }
    assert AudioSelector(Some(q)) == "ba*" + BitrateFilter + k + "]";
    assert "ba*" + BitrateFilter + k + "]" == a;
    assert VideoSelector(None) == "bv*";
    assert AudioSelector(Some(q)) != "ba*" by { assert |a| > 3; }
    GeneralShape(None, Some(q));
  }
}
