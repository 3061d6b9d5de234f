/**
 * The progress display of src/utils/progress.ts: a four-field snapshot that
 * partial updates merge into, an interval timer that is either set or not,
 * and the one-line rendering (bar, percentage, status).
 */
module Progress {
  import opened Wrappers
  import opened Text

  /** A JavaScript number as the percent field can hold it: exact, or the two non-finite values `N / 0` can give. */
  datatype Percent = Finite(value: real) | Infinite | NotANumber

  datatype Snapshot = Snapshot(percent: Percent, size: string, speed: string, status: string)

  /** A `ProgressData` argument: every field optional. */
  datatype Update = Update(percent: Option<Percent>, size: Option<string>, speed: Option<string>, status: Option<string>)

  const NoChange := Update(None, None, None, None)

  /** The snapshot a new display starts with. */
  const Waiting := Snapshot(Finite(0.0), "0B", "0B/s", "En attente...")

  /** `{ ...data, ...update }`: fields present in the update overwrite, absent ones keep their value. */
  function Merge(s: Snapshot, u: Update): (r: Snapshot)
    ensures u.percent.Some? ==> r.percent == u.percent.value
    ensures u.percent.None? ==> r.percent == s.percent
    ensures u.size.Some? ==> r.size == u.size.value
    ensures u.size.None? ==> r.size == s.size
    ensures u.speed.Some? ==> r.speed == u.speed.value
    ensures u.speed.None? ==> r.speed == s.speed
    ensures u.status.Some? ==> r.status == u.status.value
    ensures u.status.None? ==> r.status == s.status
  {
    Snapshot(u.percent.GetOr(s.percent), u.size.GetOr(s.size), u.speed.GetOr(s.speed), u.status.GetOr(s.status))
  }

  /** Two updates applied in turn, as one: the later one's present fields win. */
  function Then(u1: Update, u2: Update): Update {
    Update(
      if u2.percent.Some? then u2.percent else u1.percent,
      if u2.size.Some? then u2.size else u1.size,
      if u2.speed.Some? then u2.speed else u1.speed,
      if u2.status.Some? then u2.status else u1.status)
  }

  lemma MergeIdempotent(s: Snapshot, u: Update)
    ensures Merge(Merge(s, u), u) == Merge(s, u)
  {
  }

  lemma MergeNoChange(s: Snapshot)
    ensures Merge(s, NoChange) == s
  {
  }

  lemma MergeThen(s: Snapshot, u1: Update, u2: Update)
    ensures Merge(Merge(s, u1), u2) == Merge(s, Then(u1, u2))
  {
  }

  /** An update that sets every field replaces the snapshot outright. */
  lemma MergeFull(s: Snapshot, t: Snapshot)
    ensures Merge(s, Update(Some(t.percent), Some(t.size), Some(t.speed), Some(t.status))) == t
  {
  }

  /**
   * The display object: its snapshot, the interval timer it holds (if any),
   * the timers set and not yet cleared, the identity the next timer gets, and
   * how many times the terminal line has been cleared.
   */
  datatype Display = Display(data: Snapshot, interval: Option<nat>, live: set<nat>, nextTimer: nat, clears: nat)

  const NewDisplay := Display(Waiting, None, {}, 0, 0)

  /** The timer the display holds is the only live one, and identities are handed out fresh. */
  predicate Valid(d: Display) {
    && d.live == (if d.interval.Some? then {d.interval.value} else {})
    && forall t :: t in d.live ==> t < d.nextTimer
  }

  predicate Active(d: Display) {
    d.interval.Some?
  }

  /** `start`: clears the timer it holds, if any, then sets a new one. The snapshot is untouched. */
  function Start(d: Display): (r: Display)
    ensures r.data == d.data && r.clears == d.clears
    ensures Active(r)
    ensures Valid(d) ==> Valid(r) && r.live == {r.interval.value} && r.interval.value !in d.live
  {
    var kept := if d.interval.Some? then d.live - {d.interval.value} else d.live;
    Display(d.data, Some(d.nextTimer), kept + {d.nextTimer}, d.nextTimer + 1, d.clears)
  }

  /** `stop`: when a timer is held, clears it and the terminal line; otherwise does nothing. */
  function Stop(d: Display): (r: Display)
    ensures !Active(r) && r.data == d.data
    ensures !Active(d) ==> r == d
    ensures Active(d) ==> r.clears == d.clears + 1 && r.live == d.live - {d.interval.value}
    ensures Valid(d) ==> Valid(r) && r.live == {}
  {
    if d.interval.Some? then
      d.(interval := None, live := d.live - {d.interval.value}, clears := d.clears + 1)
    else
      d
  }

  /** `update`: merges into the snapshot and leaves the timer alone. */
  function SetData(d: Display, u: Update): (r: Display)
    ensures r.data == Merge(d.data, u)
    ensures r.interval == d.interval && r.live == d.live && r.clears == d.clears
  {
    d.(data := Merge(d.data, u))
  }

  lemma StopIdempotent(d: Display)
    ensures Stop(Stop(d)) == Stop(d)
  {
  }

  /** However many times `start` runs, exactly one timer is live afterwards. */
  lemma {:induction false} RestartKeepsOneTimer(d: Display, n: nat)
    requires Valid(d)
    ensures var r := StartTimes(d, n); Valid(r) && (n > 0 ==> |r.live| == 1) && r.data == d.data
    decreases n
  {
    if n > 0 {
      RestartKeepsOneTimer(d, n - 1);
    }
  }

  function StartTimes(d: Display, n: nat): Display
    decreases n
  {
    if n == 0 then d else Start(StartTimes(d, n - 1))
  }

  /** `Math.round`: the nearest integer, halves rounded up. */
  function Round(x: real): (n: int)
    ensures n as real - 0.5 <= x < n as real + 0.5
  {
    (x + 0.5).Floor
  }

  /** `Math.min(process.stdout.columns - 30, 50)`. */
  function BarWidth(columns: int): (w: int)
    ensures w <= 50 && w <= columns - 30
    ensures w == 50 || w == columns - 30
  {
    if columns - 30 < 50 then columns - 30 else 50
  }

  /**
   * The bar's filled and empty cell counts, `round(width * percent / 100)` and
   * the rest of the width; None where `String.prototype.repeat` throws a
   * RangeError (a negative or infinite count). A NaN count repeats nothing.
   */
  function Cells(width: int, p: Percent): (r: Option<(nat, nat)>)
    ensures p.Finite? ==> (r.Some? <==> 0 <= Round(width as real * p.value / 100.0) <= width)
    ensures p.Finite? && r.Some? ==> r.value.0 == Round(width as real * p.value / 100.0)
    ensures (p.Finite? || p.Infinite?) && r.Some? ==> r.value.0 + r.value.1 == width
    ensures p.Infinite? ==> (r.Some? <==> width == 0)
    ensures p.NotANumber? ==> r == Some((0, 0))
  {
    match p
    case Finite(v) =>
      var complete := Round(width as real * v / 100.0);
      var incomplete := width - complete;
      if complete < 0 || incomplete < 0 then None else Some((complete, incomplete))
    case Infinite =>
      if width == 0 then Some((0, 0)) else None
    case NotANumber =>
      Some((0, 0))
  }

  /**
   * The cell counts for the terminal: with no terminal `columns` is undefined,
   * the width is NaN, and both `repeat`s draw nothing whatever the percentage.
   */
  function BarCells(columns: Option<int>, p: Percent): (r: Option<(nat, nat)>)
    ensures columns.None? ==> r == Some((0, 0))
    ensures columns.Some? ==> r == Cells(BarWidth(columns.value), p)
  {
    match columns
    case None => Some((0, 0))
    case Some(c) => Cells(BarWidth(c), p)
  }

  /** With a percentage between 0 and 100 and a non-negative width the bar always draws, within the width. */
  lemma CellsWithinWidth(width: int, v: real)
    requires 0 <= width && 0.0 <= v <= 100.0
    ensures Cells(width, Finite(v)).Some?
    ensures var c := Cells(width, Finite(v)).value; c.0 <= width && c.0 + c.1 == width
  {
    var x := width as real * v / 100.0;
    assert width as real * v <= width as real * 100.0;
    assert 0.0 <= x <= width as real;
  }

  /** A terminal wider than 80 columns gets a 50-cell bar; a narrower one loses 30 columns to the text. */
  lemma BarWidthByColumns(columns: int)
    ensures columns >= 80 ==> BarWidth(columns) == 50
    ensures columns < 80 ==> BarWidth(columns) == columns - 30
  {
  }

  /**
   * `x.toFixed(1)` for an exact `x` below 10^21: the nearest tenth, halves
   * away from zero; a minus sign exactly for a negative `x`, then digits, a
   * point and one digit.
   */
  function FixedOne(x: real): (r: string)
    ensures |r| >= 3 && r[|r| - 2] == '.' && IsDigit(r[|r| - 1])
    ensures r[0] == '-' <==> x < 0.0
    ensures x < 0.0 ==> IsDigit(r[1])
  {
    if x < 0.0 then "-" + FixedOneNonNegative(-x) else FixedOneNonNegative(x)
  }

  function FixedOneNonNegative(x: real): (r: string)
    requires x >= 0.0
    ensures |r| >= 3 && IsDigit(r[0]) && r[|r| - 2] == '.' && IsDigit(r[|r| - 1])
  {
    var n: nat := Round(x * 10.0);
    NatToString(n / 10) + "." + [DigitChar(n % 10)]
  }

  /** What `toFixed(1)` writes reads back as a decimal within half a tenth of the number. */
  lemma FixedOneReadsBack(x: real)
    requires x >= 0.0
    ensures var r := FixedOne(x); var k := |r| - 2;
      && k >= 1 && r[k] == '.' && Canonical(r[..k]) && IsDigit(r[k + 1])
      && -0.05 < DecimalValue(r[..k], r[k + 1..]) - x <= 0.05
  {
    var n: nat := Round(x * 10.0);
    var w := NatToString(n / 10);
    var d := DigitChar(n % 10);
    var r := w + "." + [d];
    assert FixedOne(x) == r;
    var k := |r| - 2;
    assert r[..k] == w && r[k + 1..] == [d];
    assert [d][..0] == [];
    assert DigitsValue([d]) == n % 10;
    assert DecimalValue(w, [d]) == (n / 10) as real + (n % 10) as real / 10.0;
    assert (n / 10) as real + (n % 10) as real / 10.0 == n as real / 10.0;
  }

  /** The number as `toFixed(1)` writes it; non-finite values print by name. */
  function PercentText(p: Percent): (r: string)
    ensures p.Finite? ==> |r| >= 3 && r[|r| - 2] == '.' && (r[0] == '-' <==> p.value < 0.0)
    ensures p.Infinite? ==> r == "Infinity"
    ensures p.NotANumber? ==> r == "NaN"
  {
    match p
    case Finite(v) => FixedOne(v)
    case Infinite => "Infinity"
    case NotANumber => "NaN"
  }

  /**
   * `render`: the line the timer writes, `bar percent% | status`, with the
   * status part only when the status is non-empty; None where building the
   * bar throws. Colours are not modelled.
   */
  function RenderLine(s: Snapshot, columns: Option<int>): (r: Option<string>)
    ensures r.Some? <==> BarCells(columns, s.percent).Some?
    ensures r.Some? ==> (EndsWith(r.value, "| " + s.status) <==> s.status != "")
    ensures r.Some? ==> var c := BarCells(columns, s.percent).value;
      Repeat('█', c.0) + Repeat('░', c.1) + " " + PercentText(s.percent) + "% " <= r.value
    ensures r.Some? ==> var c := BarCells(columns, s.percent).value;
      |r.value| == c.0 + c.1 + 1 + |PercentText(s.percent)| + 2 + (if s.status != "" then 2 + |s.status| else 0)
  {
    match BarCells(columns, s.percent)
    case None => None
    case Some((complete, incomplete)) =>
      var head := Repeat('█', complete) + Repeat('░', incomplete) + " " + PercentText(s.percent) + "% ";
      var tail := if s.status != "" then "| " + s.status else "";
      var line := head + tail;
      assert head <= line;
      assert line[|line| - |tail|..] == tail;
      assert s.status == "" ==> line == head && line[|line| - 2] == '%' && "| " + s.status == "| ";
      Some(line)
  }

  /** With no terminal the line is the percentage and the status alone, and it always draws. */
  lemma NoTerminalNoBar(s: Snapshot)
    ensures RenderLine(s, None) == Some(" " + PercentText(s.percent) + "% " + (if s.status != "" then "| " + s.status else ""))
  {
    var tail := if s.status != "" then "| " + s.status else "";
    assert BarCells(None, s.percent) == Some((0, 0));
    assert Repeat('█', 0) + Repeat('░', 0) + " " + PercentText(s.percent) + "% " + tail
      == " " + PercentText(s.percent) + "% " + tail;
  }
}
