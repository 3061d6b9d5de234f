/**
 * The reading of yt-dlp's output shared by both downloader variants
 * (`updateProgress` and the destination match of `handleStdout`). Each
 * regular expression is written out as an anchored matcher on a suffix of the
 * text; `Search` makes it unanchored, taking the leftmost match as `String.prototype.match` does.
 */
module OutputParser {
  import opened Wrappers
  import opened Text
  import opened Progress

  /** `\s+`, giving what follows the run of white space. */
  function Spaces(t: string): (r: Option<string>)
    ensures r.Some? ==> EndsWith(t, r.value)
  {
    var r :- Plus(t, IsSpace);
    Some(r.1)
  }

  lemma SpacesOf(g: string, rest: string)
    requires |g| >= 1 && AllSpace(g)
    requires |rest| > 0 ==> !IsSpace(rest[0])
    ensures Spaces(g + rest) == Some(rest)
  {
    PlusOf(g, rest, IsSpace);
  }

  /** The text of `\d+\.\d+`. */
  datatype Decimal = Decimal(whole: string, fraction: string) {
    predicate Valid() {
      |whole| >= 1 && |fraction| >= 1 && AllDigits(whole) && AllDigits(fraction)
    }

    function Text(): string {
      whole + "." + fraction
    }

    /** `parseFloat` of the text, exactly. */
    function Value(): real
      requires Valid()
    {
      DecimalValue(whole, fraction)
    }
  }

  /** `\d+\.\d+` at the front of `t`, and what follows it. */
  function DecimalAt(t: string): (r: Option<(Decimal, string)>)
    ensures r.Some? ==> r.value.0.Valid() && EndsWith(t, r.value.1)
    ensures r.Some? ==> |r.value.1| > 0 ==> !IsDigit(r.value.1[0])
  {
    var w :- Plus(t, IsDigit);
    var t1 :- Lit(w.1, ".");
    var f :- Plus(t1, IsDigit);
    Some((Decimal(w.0, f.0), f.1))
  }

  lemma DecimalAtOf(d: Decimal, rest: string)
    requires d.Valid()
    requires |rest| > 0 ==> !IsDigit(rest[0])
    ensures DecimalAt(d.whole + ("." + (d.fraction + rest))) == Some((d, rest))
  {
    PlusOf(d.whole, "." + (d.fraction + rest), IsDigit);
    LitOfConcat(".", d.fraction + rest);
    PlusOf(d.fraction, rest, IsDigit);
  }

  predicate IsUnit(c: char) {
    c == 'K' || c == 'M' || c == 'G'
  }

  /** `[KMG]`. */
  function UnitAt(t: string): (r: Option<(char, string)>)
    ensures r.Some? ==> IsUnit(r.value.0) && t == [r.value.0] + r.value.1
  {
    if |t| > 0 && IsUnit(t[0]) then Some((t[0], t[1..])) else None
  }

  /** The groups of one transfer report: percent, size with its unit, speed with its unit. */
  datatype Transfer = Transfer(percent: Decimal, size: Decimal, sizeUnit: char, speed: Decimal, speedUnit: char) {
    predicate Valid() {
      percent.Valid() && size.Valid() && speed.Valid() && IsUnit(sizeUnit) && IsUnit(speedUnit)
    }
  }

  /** `\[download]\s+(\d+\.\d+)%\s+of\s+~?` at the front of `t`: the percent group and what follows. */
  function PercentPart(t: string): (r: Option<(Decimal, string)>)
    ensures r.Some? ==> r.value.0.Valid() && StartsWith(t, "[download]")
  {
    var t1 :- Lit(t, "[download]");
    var t2 :- Spaces(t1);
    var p :- DecimalAt(t2);
    var t3 :- Lit(p.1, "%");
    var t4 :- OfPart(t3);
    Some((p.0, t4))
  }

  /** `\s+of\s+~?`. */
  function OfPart(t: string): Option<string> {
    var t1 :- Spaces(t);
    var t2 :- Lit(t1, "of");
    var t3 :- Spaces(t2);
    Some(if |t3| > 0 && t3[0] == '~' then t3[1..] else t3)
  }

  /** `(\d+\.\d+)([KMG])iB\s+at\s+`: the size groups and what follows. */
  function SizePart(t: string): (r: Option<(Decimal, char, string)>)
    ensures r.Some? ==> r.value.0.Valid() && IsUnit(r.value.1)
  {
    var size :- DecimalAt(t);
    var su :- UnitAt(size.1);
    var t1 :- Lit(su.1, "iB");
    var t2 :- Spaces(t1);
    var t3 :- Lit(t2, "at");
    var t4 :- Spaces(t3);
    Some((size.0, su.0, t4))
  }

  /** `(\d+\.\d+)([KMG])iB\/s`: the speed groups. */
  function SpeedPart(t: string): (r: Option<(Decimal, char)>)
    ensures r.Some? ==> r.value.0.Valid() && IsUnit(r.value.1)
  {
    var speed :- DecimalAt(t);
    var vu :- UnitAt(speed.1);
    var _ :- Lit(vu.1, "iB/s");
    Some((speed.0, vu.0))
  }

  /**
   * `\[download]\s+(\d+\.\d+)%\s+of\s+~?(\d+\.\d+)([KMG])iB\s+at\s+(\d+\.\d+)([KMG])iB\/s`
   * anchored at the front of `t`. Every `\s+` and `\d+` is followed by a
   * character it cannot match, and `~?` by a digit, so taking the longest run
   * never needs undoing.
   */
  function TransferAt(t: string): (r: Option<Transfer>)
    ensures r.Some? ==> r.value.Valid() && StartsWith(t, "[download]")
  {
    var p :- PercentPart(t);
    var size :- SizePart(p.1);
    var speed :- SpeedPart(size.2);
    Some(Transfer(p.0, size.0, size.1, speed.0, speed.1))
  }

  /** The white space between the parts of a transfer report. */
  datatype Gaps = Gaps(afterTag: string, afterPercent: string, afterOf: string, afterSize: string, afterAt: string) {
    predicate Valid() {
      && |afterTag| >= 1 && AllSpace(afterTag)
      && |afterPercent| >= 1 && AllSpace(afterPercent)
      && |afterOf| >= 1 && AllSpace(afterOf)
      && |afterSize| >= 1 && AllSpace(afterSize)
      && |afterAt| >= 1 && AllSpace(afterAt)
    }
  }

  function SpeedText(m: Transfer, rest: string): string {
    m.speed.whole + ("." + (m.speed.fraction + ([m.speedUnit] + ("iB/s" + rest))))
  }

  function SizeText(m: Transfer, g: Gaps, rest: string): string {
    m.size.whole + ("." + (m.size.fraction + ([m.sizeUnit] + ("iB" + (g.afterSize + ("at" + (g.afterAt + SpeedText(m, rest))))))))
  }

  /** A transfer report laid out with the given white space, optional `~`, followed by `rest`. */
  function TransferText(m: Transfer, g: Gaps, approx: bool, rest: string): string {
    var of := "of" + (g.afterOf + ((if approx then "~" else "") + SizeText(m, g, rest)));
    "[download]" + (g.afterTag + (m.percent.whole + ("." + (m.percent.fraction + ("%" + (g.afterPercent + of))))))
  }

  lemma DigitNotSpace(c: char)
    requires IsDigit(c)
    ensures !IsSpace(c)
  {
  }

  lemma SpeedPartOf(m: Transfer, rest: string)
    requires m.Valid()
    ensures SpeedPart(SpeedText(m, rest)) == Some((m.speed, m.speedUnit))
  {
    DecimalAtOf(m.speed, [m.speedUnit] + ("iB/s" + rest));
    LitOfConcat("iB/s", rest);
  }

  lemma SizePartOf(m: Transfer, g: Gaps, rest: string)
    requires m.Valid() && g.Valid()
    ensures SizePart(SizeText(m, g, rest)) == Some((m.size, m.sizeUnit, SpeedText(m, rest)))
  {
    var speed := SpeedText(m, rest);
    var at := "at" + (g.afterAt + speed);
    DecimalAtOf(m.size, [m.sizeUnit] + ("iB" + (g.afterSize + at)));
    LitOfConcat("iB", g.afterSize + at);
    SpacesOf(g.afterSize, at);
    LitOfConcat("at", g.afterAt + speed);
    DigitNotSpace(m.speed.whole[0]);
    SpacesOf(g.afterAt, speed);
  }

  /** `\s+of\s+~?` before any text that starts with a digit. */
  lemma OfPartBefore(afterPercent: string, afterOf: string, approx: bool, size: string)
    requires |afterPercent| >= 1 && AllSpace(afterPercent) && |afterOf| >= 1 && AllSpace(afterOf)
    requires |size| > 0 && IsDigit(size[0])
    ensures OfPart(afterPercent + ("of" + (afterOf + ((if approx then "~" else "") + size)))) == Some(size)
  {
    var t3 := (if approx then "~" else "") + size;
    var t2 := afterOf + t3;
    assert Spaces(afterPercent + ("of" + t2)) == Some("of" + t2) by {
      assert ("of" + t2)[0] == 'o';
      SpacesOf(afterPercent, "of" + t2);
    }
    assert Lit("of" + t2, "of") == Some(t2) by {
      LitOfConcat("of", t2);
    }
    assert Spaces(t2) == Some(t3) by {
      DigitNotSpace(size[0]);
      assert t3[0] == (if approx then '~' else size[0]);
      SpacesOf(afterOf, t3);
    }
    if approx {
      assert t3[0] == '~' && t3[1..] == size;
    } else {
      assert t3 == size && t3[0] != '~';
    }
  }

  lemma OfPartOf(m: Transfer, g: Gaps, approx: bool, rest: string)
    requires m.Valid() && g.Valid()
    ensures OfPart(g.afterPercent + ("of" + (g.afterOf + ((if approx then "~" else "") + SizeText(m, g, rest)))))
      == Some(SizeText(m, g, rest))
  {
    var size := SizeText(m, g, rest);
    assert size[0] == m.size.whole[0];
    OfPartBefore(g.afterPercent, g.afterOf, approx, size);
  }

  lemma PercentPartOf(m: Transfer, g: Gaps, approx: bool, rest: string)
    requires m.Valid() && g.Valid()
    ensures PercentPart(TransferText(m, g, approx, rest)) == Some((m.percent, SizeText(m, g, rest)))
  {
    var of := g.afterPercent + ("of" + (g.afterOf + ((if approx then "~" else "") + SizeText(m, g, rest))));
    var pctTail := "%" + of;
    var pct := m.percent.whole + ("." + (m.percent.fraction + pctTail));
    LitOfConcat("[download]", g.afterTag + pct);
    DigitNotSpace(m.percent.whole[0]);
    SpacesOf(g.afterTag, pct);
    DecimalAtOf(m.percent, pctTail);
    LitOfConcat("%", of);
    OfPartOf(m, g, approx, rest);
  }

  /** Every transfer report, whatever its spacing and whatever follows it, is read back to its groups. */
  lemma TransferAtOf(m: Transfer, g: Gaps, approx: bool, rest: string)
    requires m.Valid() && g.Valid()
    ensures TransferAt(TransferText(m, g, approx, rest)) == Some(m)
  {
    PercentPartOf(m, g, approx, rest);
    SizePartOf(m, g, rest);
    SpeedPartOf(m, rest);
  }

  /** What `Spaces` skips is a non-empty run of white space. */
  lemma SpacesSound(t: string) returns (g: string)
    requires Spaces(t).Some?
    ensures |g| >= 1 && AllSpace(g) && t == g + Spaces(t).value
  {
    g := Plus(t, IsSpace).value.0;
  }

  /** What `DecimalAt` reads is the text of its decimal. */
  lemma DecimalAtSound(t: string)
    requires DecimalAt(t).Some?
    ensures var (d, rest) := DecimalAt(t).value; t == d.whole + ("." + (d.fraction + rest))
  {
    var w := Plus(t, IsDigit).value;
    var t1 := Lit(w.1, ".").value;
    var f := Plus(t1, IsDigit).value;
    assert t == w.0 + ("." + (f.0 + f.1));
  }

  /** The speed part matches only `<decimal><unit>iB/s`, followed by anything. */
  lemma SpeedPartSound(m: Transfer, t: string) returns (rest: string)
    requires SpeedPart(t) == Some((m.speed, m.speedUnit))
    ensures t == SpeedText(m, rest)
  {
    DecimalAtSound(t);
    var speed := DecimalAt(t).value;
    var vu := UnitAt(speed.1).value;
    rest := Lit(vu.1, "iB/s").value;
  }

  /** The size part matches only `<decimal><unit>iB`, white space, `at` and white space. */
  lemma SizePartSound(m: Transfer, t: string, after: string) returns (afterSize: string, afterAt: string)
    requires SizePart(t) == Some((m.size, m.sizeUnit, after))
    ensures |afterSize| >= 1 && AllSpace(afterSize) && |afterAt| >= 1 && AllSpace(afterAt)
    ensures t == m.size.whole + ("." + (m.size.fraction + ([m.sizeUnit] + ("iB" + (afterSize + ("at" + (afterAt + after)))))))
  {
    DecimalAtSound(t);
    var size := DecimalAt(t).value;
    var su := UnitAt(size.1).value;
    var t1 := Lit(su.1, "iB").value;
    afterSize := SpacesSound(t1);
    var t3 := Lit(Spaces(t1).value, "at").value;
    afterAt := SpacesSound(t3);
  }

  /** Text is its optional leading `~` followed by the rest. */
  lemma TildeSplit(t: string, approx: bool)
    requires approx <==> |t| > 0 && t[0] == '~'
    ensures t == (if approx then "~" else "") + (if approx then t[1..] else t)
  {
    if approx {
      assert t == "~" + t[1..];
    }
  }

  /** `OfPart` matches only white space, `of`, white space and an optional `~`. */
  lemma OfPartSound(t: string) returns (afterPercent: string, afterOf: string, approx: bool)
    requires OfPart(t).Some?
    ensures |afterPercent| >= 1 && AllSpace(afterPercent) && |afterOf| >= 1 && AllSpace(afterOf)
    ensures t == afterPercent + ("of" + (afterOf + ((if approx then "~" else "") + OfPart(t).value)))
  {
    afterPercent := SpacesSound(t);
    var t1 := Spaces(t).value;
    var t2 := Lit(t1, "of").value;
    afterOf := SpacesSound(t2);
    var t3 := Spaces(t2).value;
    approx := |t3| > 0 && t3[0] == '~';
    assert OfPart(t).value == if approx then t3[1..] else t3;
    TildeSplit(t3, approx);
    assert t1 == "of" + t2;
    assert t == afterPercent + t1;
    assert t2 == afterOf + t3;
  }

  /** The percent part matches only the tag, white space, `<decimal>%` and the `of` part. */
  lemma PercentPartSound(t: string) returns (afterTag: string, afterPercent: string, afterOf: string, approx: bool)
    requires PercentPart(t).Some?
    ensures |afterTag| >= 1 && AllSpace(afterTag)
    ensures |afterPercent| >= 1 && AllSpace(afterPercent) && |afterOf| >= 1 && AllSpace(afterOf)
    ensures var (p, tail) := PercentPart(t).value;
      t == "[download]" + (afterTag + (p.whole + ("." + (p.fraction + ("%" + (afterPercent
        + ("of" + (afterOf + ((if approx then "~" else "") + tail)))))))))
  {
    var t1 := Lit(t, "[download]").value;
    afterTag := SpacesSound(t1);
    var t2 := Spaces(t1).value;
    DecimalAtSound(t2);
    var t3 := Lit(DecimalAt(t2).value.1, "%").value;
    afterPercent, afterOf, approx := OfPartSound(t3);
  }

  /** The three parts a matched transfer report was read from. */
  lemma TransferAtParts(t: string) returns (tail: string, after: string)
    requires TransferAt(t).Some?
    ensures var m := TransferAt(t).value;
      && PercentPart(t) == Some((m.percent, tail))
      && SizePart(tail) == Some((m.size, m.sizeUnit, after))
      && SpeedPart(after) == Some((m.speed, m.speedUnit))
      && m.sizeUnit in "KMG" && m.speedUnit in "KMG"
  {
    tail := PercentPart(t).value.1;
    after := SizePart(tail).value.2;
  }

  /**
   * Only a transfer report matches: text the matcher accepts is a report
   * with some white space, optional `~` and trailing text, and its units are
   * among K, M and G.
   */
  lemma TransferAtSound(t: string)
    requires TransferAt(t).Some?
    ensures var m := TransferAt(t).value;
      && m.sizeUnit in "KMG" && m.speedUnit in "KMG"
      && exists g: Gaps, approx: bool, rest: string :: g.Valid() && t == TransferText(m, g, approx, rest)
  {
    var m := TransferAt(t).value;
    var tail, after := TransferAtParts(t);
    var g, approx, rest := PartsSound(m, t, tail, after);
  }

  /** Text whose three parts each match is a transfer report laid out with some white space. */
  lemma PartsSound(m: Transfer, t: string, tail: string, after: string) returns (g: Gaps, approx: bool, rest: string)
    requires PercentPart(t) == Some((m.percent, tail))
    requires SizePart(tail) == Some((m.size, m.sizeUnit, after))
    requires SpeedPart(after) == Some((m.speed, m.speedUnit))
    ensures g.Valid() && t == TransferText(m, g, approx, rest)
  {
    var afterTag, afterPercent, afterOf;
    afterTag, afterPercent, afterOf, approx := PercentPartSound(t);
    var afterSize, afterAt := SizePartSound(m, tail, after);
    rest := SpeedPartSound(m, after);
    g := Gaps(afterTag, afterPercent, afterOf, afterSize, afterAt);
    assert tail == SizeText(m, g, rest);
  }

  /** `\[download] Downloading video (\d+) of (\d+)` anchored at the front of `t`. */
  function ItemAt(t: string): (r: Option<(string, string)>)
    ensures r.Some? ==> |r.value.0| >= 1 && AllDigits(r.value.0) && |r.value.1| >= 1 && AllDigits(r.value.1)
    ensures r.Some? ==> StartsWith(t, ItemMarker)
  {
    var t1 :- Lit(t, "[download] Downloading video ");
    var n :- Plus(t1, IsDigit);
    var t2 :- Lit(n.1, " of ");
    var m :- Plus(t2, IsDigit);
    assert t[..|ItemMarker|] == ItemMarker by {
      assert t == "[download] Downloading video " + t1;
    }
    Some((n.0, m.0))
  }

  lemma {:induction false} ItemAtOf(n: string, total: string, rest: string)
    requires |n| >= 1 && AllDigits(n) && |total| >= 1 && AllDigits(total)
    requires |rest| > 0 ==> !IsDigit(rest[0])
    ensures ItemAt("[download] Downloading video " + (n + (" of " + (total + rest)))) == Some((n, total))
  {
    LitOfConcat("[download] Downloading video ", n + (" of " + (total + rest)));
    PlusOf(n, " of " + (total + rest), IsDigit);
    LitOfConcat(" of ", total + rest);
    PlusOf(total, rest, IsDigit);
  }

  /** Only an item line matches: the marker, the two numbers, and text that does not go on with a digit. */
  lemma ItemAtSound(t: string)
    requires ItemAt(t).Some?
    ensures var (n, total) := ItemAt(t).value;
      exists rest :: (|rest| > 0 ==> !IsDigit(rest[0])) && t == "[download] Downloading video " + (n + (" of " + (total + rest)))
  {
    var t1 := Lit(t, "[download] Downloading video ").value;
    var n := Plus(t1, IsDigit).value;
    var t2 := Lit(n.1, " of ").value;
    var m := Plus(t2, IsDigit).value;
    assert t == "[download] Downloading video " + (n.0 + (" of " + (m.0 + m.1)));
  }

  const MergingMarker := "[ffmpeg] Merging formats"
  const ItemMarker := "[download] Downloading video"
  const DestinationMarker := "[download] Destination: "

  predicate NotLineTerminator(c: char) {
    !IsLineTerminator(c)
  }

  /** `\[download] Destination: (.+)` anchored at the front of `t`: the rest of that line. */
  function DestinationAt(t: string): (r: Option<string>)
    ensures r.Some? ==> |r.value| >= 1 && forall i :: 0 <= i < |r.value| ==> !IsLineTerminator(r.value[i])
  {
    var t1 :- Lit(t, DestinationMarker);
    var p :- Plus(t1, NotLineTerminator);
    Some(p.0)
  }

  lemma DestinationAtOf(path: string, rest: string)
    requires |path| >= 1 && forall i :: 0 <= i < |path| ==> !IsLineTerminator(path[i])
    requires |rest| > 0 ==> IsLineTerminator(rest[0])
    ensures DestinationAt(DestinationMarker + (path + rest)) == Some(path)
  {
    LitOfConcat(DestinationMarker, path + rest);
    PlusOf(path, rest, NotLineTerminator);
  }

  /** Only a destination line matches: the marker, the path, and the end of the text or of the line. */
  lemma DestinationAtSound(t: string)
    requires DestinationAt(t).Some?
    ensures exists rest :: (|rest| > 0 ==> IsLineTerminator(rest[0])) && t == DestinationMarker + (DestinationAt(t).value + rest)
  {
    var t1 := Lit(t, DestinationMarker).value;
    var p := Plus(t1, NotLineTerminator).value;
    assert t == DestinationMarker + (p.0 + p.1);
  }

  /** `output.match(/\[download] Destination: (.+)/)`: the file named by the first destination line, if any. */
  function DestinationOf(s: string): (r: Option<string>)
    ensures r.Some? <==> exists j :: 0 <= j <= |s| && DestinationAt(s[j..]).Some?
    ensures r.Some? ==> |r.value| >= 1 && forall i :: 0 <= i < |r.value| ==> !IsLineTerminator(r.value[i])
    ensures forall j :: FirstAt(s, DestinationAt, j) ==> r == DestinationAt(s[j..])
  {
    assert forall j :: FirstAt(s, DestinationAt, j) ==> Search(s, DestinationAt) == Some((j as nat, DestinationAt(s[j..]).value)) by {
      forall j | FirstAt(s, DestinationAt, j) {
        SearchFindsFirst(s, DestinationAt, j);
      }
    }
    match Search(s, DestinationAt)
    case Some((_, path)) => Some(path)
    case None => None
  }

  /** A text names a destination only if it holds the destination marker. */
  lemma DestinationNeedsMarker(s: string)
    ensures DestinationOf(s).Some? ==> Includes(s, DestinationMarker)
  {
    if DestinationOf(s).Some? {
      var j := Search(s, DestinationAt).value.0;
      assert StartsWith(s[j..], DestinationMarker);
    }
  }

  /** A line that names a destination is read back to that path. */
  lemma DestinationOfLine(path: string, rest: string)
    requires |path| >= 1 && forall i :: 0 <= i < |path| ==> !IsLineTerminator(path[i])
    requires |rest| > 0 ==> IsLineTerminator(rest[0])
    ensures DestinationOf(DestinationMarker + (path + rest)) == Some(path)
  {
    var s := DestinationMarker + (path + rest);
    DestinationAtOf(path, rest);
    assert s[0..] == s;
  }

  /** The update a transfer report makes: every field, the status being "<size> à <speed>". */
  function TransferUpdate(m: Transfer): Update
    requires m.Valid()
  {
    var size := m.size.Text() + [m.sizeUnit] + "iB";
    var speed := m.speed.Text() + [m.speedUnit] + "iB/s";
    Update(Some(Finite(m.percent.Value())), Some(size), Some(speed), Some(size + " à " + speed))
  }

  const MergingUpdate := Update(Some(Finite(100.0)), None, None, Some("Fusion des formats..."))

  /** `(current / total) * 100` as JavaScript evaluates it on exact values, N / 0 included. */
  function ItemPercent(current: nat, total: nat): (p: Percent)
    ensures total > 0 ==> p == Finite(current as real * 100.0 / total as real)
    ensures total == 0 && current > 0 ==> p == Infinite
    ensures total == 0 && current == 0 ==> p == NotANumber
  {
    if total == 0 then
      if current == 0 then NotANumber else Infinite
    else
      assert current as real / total as real * 100.0 == current as real * 100.0 / total as real;
      Finite(current as real / total as real * 100.0)
  }

  /** The update a playlist item line makes: percent and "Vidéo N/M" with the numbers as `parseInt` reads them. */
  function ItemUpdate(current: string, total: string): Update
    requires AllDigits(current) && AllDigits(total)
  {
    var n := DigitsValue(current);
    var m := DigitsValue(total);
    Update(Some(ItemPercent(n, m)), None, None, Some("Vidéo " + NatToString(n) + "/" + NatToString(m)))
  }

  /**
   * `updateProgress`: the first transfer report in the text if there is one;
   * otherwise a merge notice; otherwise the first playlist item line. Any other
   * text changes nothing.
   */
  function ParseOutput(s: string): (r: Update)
    ensures r == NoChange <==> Search(s, TransferAt).None? && !Includes(s, MergingMarker) && Search(s, ItemAt).None?
    ensures r.size.Some? <==> Search(s, TransferAt).Some?
    ensures Search(s, TransferAt).Some? ==> r.size.Some? && r.speed.Some? && r.percent.Some? && r.status.Some?
    ensures Search(s, TransferAt).None? && Includes(s, MergingMarker) ==> r == MergingUpdate
    ensures r.percent.Some? <==> r != NoChange
    ensures forall j :: FirstAt(s, TransferAt, j) ==> r == TransferUpdate(TransferAt(s[j..]).value)
    ensures Search(s, TransferAt).None? && !Includes(s, MergingMarker) ==>
      forall j :: FirstAt(s, ItemAt, j) ==> r == ItemUpdate(ItemAt(s[j..]).value.0, ItemAt(s[j..]).value.1)
  {
    assert forall j :: FirstAt(s, TransferAt, j) ==> Search(s, TransferAt) == Some((j as nat, TransferAt(s[j..]).value)) by {
      forall j | FirstAt(s, TransferAt, j) {
        SearchFindsFirst(s, TransferAt, j);
      }
    }
    assert forall j :: FirstAt(s, ItemAt, j) ==> Search(s, ItemAt) == Some((j as nat, ItemAt(s[j..]).value)) by {
      forall j | FirstAt(s, ItemAt, j) {
        SearchFindsFirst(s, ItemAt, j);
      }
    }
    match Search(s, TransferAt)
    case Some((_, m)) => TransferUpdate(m)
    case None =>
      if Includes(s, MergingMarker) then
        MergingUpdate
      else if Includes(s, ItemMarker) then
        match Search(s, ItemAt)
        case Some((_, item)) => ItemUpdate(item.0, item.1)
        case None => NoChange
      else
        ItemNeedsMarker(s);
        NoChange
  }

  /** The destination each text names, if any. */
  function Destinations(texts: seq<string>): (r: seq<Option<string>>)
    ensures |r| == |texts| && forall i :: 0 <= i < |texts| ==> r[i] == DestinationOf(texts[i])
  {
    seq(|texts|, i requires 0 <= i < |texts| => DestinationOf(texts[i]))
  }

  /** The updates of the texts, read in order, combined into one: later present fields win. */
  function Combined(texts: seq<string>): Update
    decreases |texts|
  {
    if |texts| == 0 then NoChange
    else Then(Combined(texts[..|texts| - 1]), ParseOutput(texts[|texts| - 1]))
  }

  /** One more text: its destination, if it names one, becomes the last; its update is applied last. */
  lemma TextsSnoc(prefix: seq<string>, last: string)
    ensures LastPresent(Destinations(prefix + [last]))
      == if DestinationOf(last).Some? then DestinationOf(last) else LastPresent(Destinations(prefix))
    ensures Combined(prefix + [last]) == Then(Combined(prefix), ParseOutput(last))
  {
    var texts := prefix + [last];
    assert texts[..|texts| - 1] == prefix;
    assert Destinations(texts)[..|texts| - 1] == Destinations(prefix);
  }

  /** The `includes` test before the item pattern never rejects a line the pattern would match. */
  lemma ItemNeedsMarker(s: string)
    ensures Search(s, ItemAt).Some? ==> Includes(s, ItemMarker)
  {
    if Search(s, ItemAt).Some? {
      var j := Search(s, ItemAt).value.0;
      assert StartsWith(s[j..], ItemMarker);
    }
  }
}

/** What `ParseOutput` makes of the lines yt-dlp writes, and of text that is not one of them. */
module OutputParserFacts {
  import opened Wrappers
  import opened Text
  import opened Progress
  import opened OutputParser

  /** No `[download]` tag can start inside `pre`: it never has a `d` right after a `[`. */
  predicate NoDownloadTag(pre: string) {
    forall i :: 0 <= i < |pre| - 1 ==> !(pre[i] == '[' && pre[i + 1] == 'd')
  }

  /** Inside such a text, followed by text starting with `[`, nothing starts with `[d`. */
  lemma TagNotInside(pre: string, t: string, k: nat)
    requires NoDownloadTag(pre) && k < |pre| && |t| > 0 && t[0] == '['
    ensures !StartsWith((pre + t)[k..], "[d")
  {
    var s := pre + t;
    if k + 1 < |pre| {
      assert s[k] == pre[k] && s[k + 1] == pre[k + 1];
    } else {
      assert s[k + 1] == t[0];
    }
  }

  /** Text that does not start with `[d` starts with no longer literal that does. */
  lemma NotTagNotMarker(x: string, lit: string)
    requires |lit| >= 2 && lit[..2] == "[d" && !StartsWith(x, "[d")
    ensures !StartsWith(x, lit)
  {
    if |lit| <= |x| {
      assert x[..|lit|][..2] == x[..2];
      assert lit[..2] == "[d";
    }
  }

  /**
   * A destination line after log text without a `[download]` tag, such as
   * `[youtube] x: Downloading webpage` and a newline, names the file of that line.
   */
  lemma DestinationAfterLog(pre: string, path: string, rest: string)
    requires NoDownloadTag(pre)
    requires |path| >= 1 && forall i :: 0 <= i < |path| ==> !IsLineTerminator(path[i])
    requires |rest| > 0 ==> IsLineTerminator(rest[0])
    ensures DestinationOf(pre + (DestinationMarker + (path + rest))) == Some(path)
  {
    var t := DestinationMarker + (path + rest);
    var s := pre + t;
    assert s[|pre|..] == t;
    DestinationAtOf(path, rest);
    forall k | 0 <= k < |pre|
      ensures DestinationAt(s[k..]).None?
    {
      TagNotInside(pre, t, k);
      NotTagNotMarker(s[k..], DestinationMarker);
    }
    assert FirstAt(s, DestinationAt, |pre|);
  }

  /** A transfer report after log text without a `[download]` tag is the first one in the text. */
  lemma TransferFirstAfterLog(pre: string, t: string)
    requires NoDownloadTag(pre) && TransferAt(t).Some?
    ensures FirstAt(pre + t, TransferAt, |pre|)
  {
    var s := pre + t;
    assert s[|pre|..] == t;
    assert t[..10] == "[download]";
    forall k | 0 <= k < |pre|
      ensures TransferAt(s[k..]).None?
    {
      TagNotInside(pre, t, k);
      NotTagNotMarker(s[k..], "[download]");
    }
  }

  /** A transfer report after log text without a `[download]` tag sets every field from that report. */
  lemma TransferAfterLog(pre: string, m: Transfer, g: Gaps, approx: bool, rest: string)
    requires NoDownloadTag(pre) && m.Valid() && g.Valid()
    ensures ParseOutput(pre + TransferText(m, g, approx, rest)) == TransferUpdate(m)
  {
    var t := TransferText(m, g, approx, rest);
    TransferAtOf(m, g, approx, rest);
    TransferFirstAfterLog(pre, t);
    assert (pre + t)[|pre|..] == t;
  }

  /** A transfer report at the front of the text is applied in full, whatever follows it in the same text. */
  lemma ParseTransferText(m: Transfer, g: Gaps, approx: bool, rest: string)
    requires m.Valid() && g.Valid()
    ensures ParseOutput(TransferText(m, g, approx, rest)) == TransferUpdate(m)
  {
    var s := TransferText(m, g, approx, rest);
    TransferAtOf(m, g, approx, rest);
    assert s[0..] == s;
  }

  /**
   * The text sets a size exactly when a transfer report starts somewhere in
   * it: the matcher accepts every report and nothing else.
   */
  lemma SizeSetExactlyAtReport(s: string)
    ensures ParseOutput(s).size.Some? <==>
      exists j: nat, m: Transfer, g: Gaps, approx: bool, rest: string ::
        j <= |s| && m.Valid() && g.Valid() && s[j..] == TransferText(m, g, approx, rest)
  {
    match Search(s, TransferAt)
    case Some((j, m)) =>
      TransferAtSound(s[j..]);
      var g: Gaps, approx: bool, rest: string :| g.Valid() && s[j..] == TransferText(m, g, approx, rest);
    case None =>
      forall j: nat, m: Transfer, g: Gaps, approx: bool, rest: string |
        j <= |s| && m.Valid() && g.Valid() && s[j..] == TransferText(m, g, approx, rest)
        ensures false
      {
        TransferAtOf(m, g, approx, rest);
      }
  }

  lemma PercentPartNeedsPercent(t: string)
    requires PercentPart(t).Some?
    ensures '%' in t
  {
    var t1 := Lit(t, "[download]").value;
    var t2 := Spaces(t1).value;
    var p := DecimalAt(t2).value;
    assert StartsWith(p.1, "%");
    assert t1[|t1| - |t2|..] == t2 && t2[|t2| - |p.1|..] == p.1;
    assert t1[|t1| - |p.1|] == p.1[0];
    assert t[|t| - |p.1|] == '%';
  }

  lemma TransferNeedsPercent(t: string)
    ensures TransferAt(t).Some? ==> '%' in t
  {
    if PercentPart(t).Some? {
      PercentPartNeedsPercent(t);
    }
  }

  /** Text without a '%' holds no transfer report. */
  lemma NoTransferWithoutPercent(s: string)
    requires '%' !in s
    ensures Search(s, TransferAt).None?
  {
    forall j | 0 <= j <= |s|
      ensures TransferAt(s[j..]).None?
    {
      TransferNeedsPercent(s[j..]);
      assert forall k :: 0 <= k < |s[j..]| ==> s[j..][k] == s[j + k];
    }
  }

  /** Text without a '[' holds no transfer report. */
  lemma NoTransferWithoutBracket(s: string)
    requires '[' !in s
    ensures Search(s, TransferAt).None?
  {
    forall j | 0 <= j <= |s|
      ensures TransferAt(s[j..]).None?
    {
      assert |s[j..]| > 0 ==> s[j..][0] == s[j];
    }
  }

  lemma NotIncludedWithout(s: string, lit: string, c: char)
    requires c in lit && c !in s
    ensures !Includes(s, lit)
  {
    if Includes(s, lit) {
      IncludesHasChars(s, lit, c);
    }
  }

  /** A merge notice with no transfer report after it sets percent 100 and the merging status, nothing else. */
  lemma ParseMergingText(rest: string)
    requires '%' !in rest
    ensures ParseOutput(MergingMarker + rest) == MergingUpdate
  {
    var s := MergingMarker + rest;
    assert '%' !in MergingMarker;
    NoTransferWithoutPercent(s);
    assert StartsWith(s[0..], MergingMarker);
  }

  function ItemText(n: string, total: string, rest: string): string {
    "[download] Downloading video " + (n + (" of " + (total + rest)))
  }

  lemma ItemTextLacks(n: string, total: string, rest: string, c: char)
    requires AllDigits(n) && AllDigits(total) && !IsDigit(c)
    requires c !in "[download] Downloading video " && c !in " of " && c !in rest
    ensures c !in ItemText(n, total, rest)
  {
    assert c !in n && c !in total;
  }

  /** An item line holds neither a transfer report nor a merge notice. */
  lemma ItemTextQuiet(n: string, total: string, rest: string)
    requires AllDigits(n) && AllDigits(total)
    requires '%' !in rest && 'M' !in rest
    ensures Search(ItemText(n, total, rest), TransferAt).None?
    ensures !Includes(ItemText(n, total, rest), MergingMarker)
  {
    var s := ItemText(n, total, rest);
    ItemTextLacks(n, total, rest, '%');
    ItemTextLacks(n, total, rest, 'M');
    NoTransferWithoutPercent(s);
    NotIncludedWithout(s, MergingMarker, 'M');
  }

  /**
   * A playlist item line sets percent to N * 100 / M and the status to
   * "Vidéo N/M", provided nothing after it in the text is a transfer report
   * or merge notice.
   */
  lemma ParseItemText(n: string, total: string, rest: string)
    requires |n| >= 1 && AllDigits(n) && |total| >= 1 && AllDigits(total)
    requires |rest| > 0 ==> !IsDigit(rest[0])
    requires '%' !in rest && 'M' !in rest
    ensures ParseOutput(ItemText(n, total, rest)) == ItemUpdate(n, total)
  {
    var s := ItemText(n, total, rest);
    ItemTextQuiet(n, total, rest);
    ItemAtOf(n, total, rest);
    assert s[0..] == s;
    assert FirstAt(s, ItemAt, 0);
  }

  const ExampleReport := Transfer(Decimal("42", "5"), Decimal("123", "4"), 'M', Decimal("5", "6"), 'M')

  lemma ExampleReportUpdate()
    ensures ExampleReport.Valid()
    ensures TransferUpdate(ExampleReport)
      == Update(Some(Finite(42.5)), Some("123.4MiB"), Some("5.6MiB/s"), Some("123.4MiB à 5.6MiB/s"))
  {
    assert "42"[..1] == "4" && "5"[..0] == "" && "4"[..0] == "";
    assert DigitsValue("42") == 42 && DigitsValue("5") == 5;
    assert Pow10(1) == 10;
    assert ExampleReport.percent.Value() == 42.5;
    assert ExampleReport.size.Text() + ['M'] + "iB" == "123.4MiB";
    assert ExampleReport.speed.Text() + ['M'] + "iB/s" == "5.6MiB/s";
    assert "123.4MiB" + " à " + "5.6MiB/s" == "123.4MiB à 5.6MiB/s";
  }

  const ExampleGaps := Gaps("  ", " ", " ", " ", " ")

  /** A typical report, `[download]  42.5% of ~123.4MiB at 5.6MiB/s`: percent 42.5, size, speed and "123.4MiB à 5.6MiB/s". */
  lemma TransferExample()
    ensures ParseOutput(TransferText(ExampleReport, ExampleGaps, true, ""))
      == Update(Some(Finite(42.5)), Some("123.4MiB"), Some("5.6MiB/s"), Some("123.4MiB à 5.6MiB/s"))
  {
    ExampleReportUpdate();
    assert ExampleGaps.Valid();
    ParseTransferText(ExampleReport, ExampleGaps, true, "");
  }

  lemma ExampleItemUpdate()
    ensures ItemUpdate("3", "10") == Update(Some(Finite(30.0)), None, None, Some("Vidéo 3/10"))
  {
    assert "10"[..1] == "1" && "3"[..0] == "" && "1"[..0] == "";
    assert DigitsValue("10") == 10 && DigitsValue("3") == 3;
    assert NatToString(1) == "1" && NatToString(0) == "0";
    assert NatToString(10) == "10";
    assert NatToString(3) == "3";
    assert ItemPercent(3, 10) == Finite(30.0);
    assert "Vidéo " + "3" + "/" + "10" == "Vidéo 3/10";
  }

  /** A typical playlist item line: video 3 of 10 is 30 percent, "Vidéo 3/10". */
  lemma ItemExample()
    ensures ParseOutput("[download] Downloading video 3 of 10")
      == Update(Some(Finite(30.0)), None, None, Some("Vidéo 3/10"))
  {
    assert ItemText("3", "10", "") == "[download] Downloading video 3 of 10";
    ParseItemText("3", "10", "");
    ExampleItemUpdate();
  }

  /** Text with no '%', no 'M' and no 'v' holds no report, merge notice or item line. */
  lemma PlainTextChangesNothing(s: string)
    requires '%' !in s && 'M' !in s && 'v' !in s
    ensures ParseOutput(s) == NoChange
  {
    NoTransferWithoutPercent(s);
    NotIncludedWithout(s, MergingMarker, 'M');
    NotIncludedWithout(s, ItemMarker, 'v');
  }

  /** Text with no '[' holds no report, merge notice or item line. */
  lemma UntaggedTextChangesNothing(s: string)
    requires '[' !in s
    ensures ParseOutput(s) == NoChange
  {
    NoTransferWithoutBracket(s);
    NotIncludedWithout(s, MergingMarker, '[');
    NotIncludedWithout(s, ItemMarker, '[');
  }

  lemma DigitsLack(s: string, c: char)
    requires AllDigits(s) && !IsDigit(c)
    ensures c !in s
  {
  }

  lemma SpacesLack(s: string, c: char)
    requires AllSpace(s) && !IsSpace(c)
    ensures c !in s
  {
  }

  /** A transfer report up to, not including, its '%'. */
  function ReportHead(m: Transfer, g: Gaps): string {
    "[download]" + (g.afterTag + (m.percent.whole + ("." + m.percent.fraction)))
  }

  /** A transfer report from its '%' on. */
  function ReportTail(m: Transfer, g: Gaps, approx: bool, rest: string): string {
    "%" + (g.afterPercent + ("of" + (g.afterOf + ((if approx then "~" else "") + SizeText(m, g, rest)))))
  }

  lemma ReportHeadTail(m: Transfer, g: Gaps, approx: bool, rest: string)
    ensures ReportHead(m, g) + ReportTail(m, g, approx, rest) == TransferText(m, g, approx, rest)
  {
  }

  lemma ReportTailLacksBracket(m: Transfer, g: Gaps, approx: bool, rest: string)
    requires m.Valid() && g.Valid() && '[' !in rest
    ensures '[' !in ReportTail(m, g, approx, rest)
  {
    assert '[' !in SpeedText(m, rest) by {
      DigitsLack(m.speed.whole, '['); DigitsLack(m.speed.fraction, '[');
    }
    assert '[' !in SizeText(m, g, rest) by {
      DigitsLack(m.size.whole, '['); DigitsLack(m.size.fraction, '[');
      SpacesLack(g.afterSize, '['); SpacesLack(g.afterAt, '[');
    }
    SpacesLack(g.afterPercent, '['); SpacesLack(g.afterOf, '[');
  }

  lemma ReportHeadLacks(m: Transfer, g: Gaps, c: char)
    requires m.Valid() && g.Valid()
    requires !IsDigit(c) && !IsSpace(c) && c != '.' && c !in "[download]"
    ensures c !in ReportHead(m, g)
  {
    DigitsLack(m.percent.whole, c); DigitsLack(m.percent.fraction, c);
    SpacesLack(g.afterTag, c);
  }

  /**
   * Text is read chunk by chunk with no carry-over: a transfer report cut
   * just before its '%' changes nothing in either chunk, though the whole
   * report sets every field.
   */
  lemma SplitReportIsLost(m: Transfer, g: Gaps, approx: bool, rest: string)
    requires m.Valid() && g.Valid() && '[' !in rest
    ensures ParseOutput(ReportHead(m, g)) == NoChange
    ensures ParseOutput(ReportTail(m, g, approx, rest)) == NoChange
    ensures ParseOutput(ReportHead(m, g) + ReportTail(m, g, approx, rest)) == TransferUpdate(m)
  {
    ReportHeadLacks(m, g, '%');
    ReportHeadLacks(m, g, 'M');
    ReportHeadLacks(m, g, 'v');
    PlainTextChangesNothing(ReportHead(m, g));
    ReportTailLacksBracket(m, g, approx, rest);
    UntaggedTextChangesNothing(ReportTail(m, g, approx, rest));
    ReportHeadTail(m, g, approx, rest);
    ParseTransferText(m, g, approx, rest);
  }
}
