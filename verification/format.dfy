/**
 * `formatDuration` of src/utils/format.ts: a number of seconds as
 * "<h>h <m>m <s>s", "<m>m <s>s" or "<s>s", and "Durée inconnue" for a
 * missing or zero duration. Its partner `ParseDuration` reads the text back.
 */
module Format {
  import opened Wrappers
  import opened Text

  const Unknown := "Durée inconnue"

  /** A multiple of `m` leaves no remainder. */
  lemma MultipleMod(k: int, m: int)
    requires m > 0
    ensures (k * m) % m == 0
  {
    var x := k * m;
    var d := k - x / m;
    assert x == (x / m) * m + x % m;
    assert x % m == d * m by {
      assert d * m == k * m - (x / m) * m;
    }
  }

  /** JavaScript's `a % m` for a positive modulus: the remainder takes the sign of `a`. */
  function JsRem(a: int, m: int): (r: int)
    requires m > 0
    ensures a >= 0 ==> r == a % m
    ensures a < 0 ==> -m < r <= 0
    ensures (a - r) % m == 0
  {
    if a >= 0 then
      assert a - a % m == (a / m) * m;
      MultipleMod(a / m, m);
      a % m
    else
      var b := -a;
      var q := b / m;
      assert b == q * m + b % m;
      assert (-q) * m == -(q * m);
      MultipleMod(-q, m);
      -((-a) % m)
  }

  /** The three fields: `Math.floor(s / 3600)`, `Math.floor((s % 3600) / 60)`, `Math.floor(s % 60)`. */
  function Fields(s: int): (r: (int, int, int)) {
    (s / 3600, JsRem(s, 3600) / 60, JsRem(s, 60))
  }

  /** One field of the text: the number and its unit letter, as in `${hours}h`. */
  function Field(n: int, unit: char): string {
    IntToString(n) + [unit]
  }

  /** The three shapes, by the first non-zero field among hours and minutes. */
  function Render(hours: int, minutes: int, secs: int): string {
    if hours > 0 then Field(hours, 'h') + " " + (Field(minutes, 'm') + " " + Field(secs, 's'))
    else if minutes > 0 then Field(minutes, 'm') + " " + Field(secs, 's')
    else Field(secs, 's')
  }

  /**
   * `formatDuration(seconds)` for a whole number of seconds; None stands for
   * `undefined` and NaN.
   */
  function FormatDuration(seconds: Option<int>): (r: string)
    ensures seconds.None? || seconds == Some(0) ==> r == Unknown
  {
    match seconds
    case None => Unknown
    case Some(s) =>
      if s == 0 then Unknown
      else
        var (hours, minutes, secs) := Fields(s);
        Render(hours, minutes, secs)
  }

  /** For a non-negative duration the fields are its hours, minutes below 60 and seconds below 60. */
  lemma FieldsDecompose(s: int)
    requires s >= 0
    ensures var (h, m, sec) := Fields(s);
      && h >= 0 && 0 <= m < 60 && 0 <= sec < 60
      && h * 3600 + m * 60 + sec == s
  {
    var (h, m, sec) := Fields(s);
    assert s % 3600 == m * 60 + sec by {
      assert (s % 3600) % 60 == s % 60 by {
        assert s == (s / 3600) * 3600 + s % 3600;
        assert s == ((s / 3600) * 60) * 60 + s % 3600;
      }
    }
  }

  /** Reads one field `<digits><unit>`, the digits written as `String` writes a number. */
  function ReadField(piece: string, unit: char): (r: Option<nat>) {
    if |piece| >= 2 && piece[|piece| - 1] == unit && Canonical(piece[..|piece| - 1]) then
      Some(DigitsValue(piece[..|piece| - 1]))
    else
      None
  }

  /** Reads the pieces of a formatted duration: hours, minutes and seconds, or the last two, or seconds alone. */
  function ReadPieces(parts: seq<string>): (r: Option<int>) {
    if |parts| == 0 || |parts| > 3 then None
    else
      var n := |parts|;
      var h := if n == 3 then ReadField(parts[0], 'h') else Some(0);
      var m := if n >= 2 then ReadField(parts[n - 2], 'm') else Some(0);
      var s := ReadField(parts[n - 1], 's');
      if h.Some? && m.Some? && s.Some? then Some(h.value * 3600 + m.value * 60 + s.value) else None
  }

  /** Reads a formatted duration back to seconds; None for anything else. */
  function ParseDuration(text: string): (r: Option<int>) {
    ReadPieces(Split(text, ' '))
  }

  lemma ReadFieldOf(n: nat, unit: char)
    requires !IsDigit(unit)
    ensures ReadField(Field(n, unit), unit) == Some(n)
    ensures ' ' !in Field(n, unit) || unit == ' '
  {
    var p := Field(n, unit);
    assert p[..|p| - 1] == NatToString(n);
  }

  /** The space-separated pieces `Render` writes, largest unit first. */
  function Pieces(hours: int, minutes: int, secs: int): seq<string> {
    if hours > 0 then [Field(hours, 'h'), Field(minutes, 'm'), Field(secs, 's')]
    else if minutes > 0 then [Field(minutes, 'm'), Field(secs, 's')]
    else [Field(secs, 's')]
  }

  /** Non-negative fields are written as their pieces joined by single spaces, and split back into them. */
  lemma RenderedPieces(hours: nat, minutes: nat, secs: nat)
    ensures Render(hours, minutes, secs) == Join(Pieces(hours, minutes, secs), ' ')
    ensures Split(Render(hours, minutes, secs), ' ') == Pieces(hours, minutes, secs)
  {
    ReadFieldOf(hours, 'h');
    ReadFieldOf(minutes, 'm');
    ReadFieldOf(secs, 's');
    var parts := Pieces(hours, minutes, secs);
    if hours > 0 {
      assert parts[1..][1..] == [Field(secs, 's')];
    } else if minutes > 0 {
      assert parts[1..] == [Field(secs, 's')];
    }
    SplitJoin(parts, ' ');
  }

  /** Three, two or one pieces read field by field, whatever the pieces' text. */
  lemma ReadPiecesOf(ph: string, pm: string, ps: string, h: nat, m: nat, sec: nat)
    requires ReadField(ph, 'h') == Some(h) && ReadField(pm, 'm') == Some(m) && ReadField(ps, 's') == Some(sec)
    ensures ReadPieces([ph, pm, ps]) == Some(h * 3600 + m * 60 + sec)
    ensures ReadPieces([pm, ps]) == Some(m * 60 + sec)
    ensures ReadPieces([ps]) == Some(sec)
  {
  }

  /** The pieces of non-negative fields read back to the seconds they stand for. */
  lemma ReadRenderedPieces(hours: nat, minutes: nat, secs: nat)
    ensures ReadPieces(Pieces(hours, minutes, secs)) == Some(hours * 3600 + minutes * 60 + secs)
  {
    ReadFieldOf(hours, 'h');
    ReadFieldOf(minutes, 'm');
    ReadFieldOf(secs, 's');
    ReadPiecesOf(Field(hours, 'h'), Field(minutes, 'm'), Field(secs, 's'), hours, minutes, secs);
    if hours == 0 {
      assert hours * 3600 == 0;
    }
    if minutes == 0 {
      assert minutes * 60 == 0;
    }
  }

  /** Rendered fields read back to the seconds they stand for. */
  lemma ParseRendered(hours: nat, minutes: nat, secs: nat)
    ensures ParseDuration(Render(hours, minutes, secs)) == Some(hours * 3600 + minutes * 60 + secs)
  {
    RenderedPieces(hours, minutes, secs);
    ReadRenderedPieces(hours, minutes, secs);
  }

  /** What `formatDuration` writes for a positive duration reads back to that duration. */
  lemma ParseFormatted(s: int)
    requires s > 0
    ensures ParseDuration(FormatDuration(Some(s))) == Some(s)
  {
    var (h, m, sec) := Fields(s);
    assert h >= 0 && m >= 0 && sec >= 0 && h * 3600 + m * 60 + sec == s by {
      FieldsDecompose(s);
    }
    var t := Render(h, m, sec);
    assert ParseDuration(t) == Some(s) by {
      ParseRendered(h, m, sec);
    }
    assert FormatDuration(Some(s)) == t;
  }

  /** Distinct positive durations are written differently. */
  lemma FormatInjective(s: int, t: int)
    requires s > 0 && t > 0 && FormatDuration(Some(s)) == FormatDuration(Some(t))
    ensures s == t
  {
    ParseFormatted(s);
    ParseFormatted(t);
  }

  /** Which of the three shapes a positive duration gets, by its size. */
  lemma FormatShape(s: int)
    requires s > 0
    ensures s >= 3600 ==>
      Split(FormatDuration(Some(s)), ' ') == [Field(s / 3600, 'h'), Field(s % 3600 / 60, 'm'), Field(s % 60, 's')]
    ensures 60 <= s < 3600 ==> Split(FormatDuration(Some(s)), ' ') == [Field(s / 60, 'm'), Field(s % 60, 's')]
    ensures s < 60 ==> Split(FormatDuration(Some(s)), ' ') == [Field(s, 's')]
  {
    FieldsDecompose(s);
    var (h, m, sec) := Fields(s);
    assert sec == s % 60;
    RenderedPieces(h, m, sec);
    if s < 3600 {
      assert h == 0 && s % 3600 == s;
      if s >= 60 {
        assert m == s / 60;
      } else {
        assert m == 0 && sec == s;
      }
    }
  }
}
