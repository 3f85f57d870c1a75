/** `make_bar` and `snapshot_dashboard` (utils/sysinfo.py): text bars for the
    per-core CPU load and the RAM in use. A fraction is given exactly, as a
    numerator over a positive denominator, and `round` is Python's rounding
    of that exact value (the nearest integer, ties to the even one). */
module Dashboard {
  import opened PyStr
  import opened Units

  /** `make_bar(num / den, width)`: '[', `round(width * fraction)` '#'s, the
      rest of the width in '.'s, and ']'. */
  function MakeBar(width: int, num: int, den: int): string
    requires den > 0
  {
    var filled := Filled(width, num, den);
    "[" + Repeat('#', filled) + Repeat('.', width - filled) + "]"
  }

  /** The number of '#'s: the width times the fraction, rounded. */
  function Filled(width: int, num: int, den: int): int
    requires den > 0
  {
    RoundDiv(width * num, den)
  }

  /** Nothing is clamped: the bar holds as many '#'s as the rounded product
      asks for (none when it is negative), then '.'s up to the width, so a
      fraction above 1 makes the bar longer than the width. */
  lemma MakeBarShape(width: int, num: int, den: int)
    requires den > 0
    ensures var bar := MakeBar(width, num, den);
      var f := Filled(width, num, den);
      var hashes := if f < 0 then 0 else f;
      var dots := if width - f < 0 then 0 else width - f;
      && |bar| == hashes + dots + 2
      && bar[0] == '[' && bar[|bar| - 1] == ']'
      && (forall i :: 1 <= i <= hashes ==> bar[i] == '#')
      && (forall i :: hashes < i <= hashes + dots ==> bar[i] == '.')
  {
    var f := Filled(width, num, den);
    var bar := MakeBar(width, num, den);
    var h := Repeat('#', f);
    var d := Repeat('.', width - f);
    assert bar == "[" + h + d + "]";
    forall i | 1 <= i <= |h| ensures bar[i] == '#' {
      assert bar[i] == h[i - 1];
    }
    forall i | |h| < i <= |h| + |d| ensures bar[i] == '.' {
      assert bar[i] == d[i - 1 - |h|];
    }
  }

  /** For a fraction between 0 and 1 and a width that is not negative, the
      bar is exactly `width + 2` characters and the '#'s number between none
      and the whole width. */
  lemma FilledRange(width: int, num: int, den: int)
    requires den > 0 && 0 <= num <= den && width >= 0
    ensures 0 <= Filled(width, num, den) <= width
    ensures |MakeBar(width, num, den)| == width + 2
  {
    var n := width * num;
    var top := width * den;
    assert 0 <= n <= top by {
      if width > 0 {
        MulAtLeast(num, 0, width);
        MulAtLeast(den, num, width);
        assert num * width == n && den * width == top;
      }
    }
    RoundDivAtLeast(n, den, 0);
    RoundDivAtLeast(n, den, width + 1);
    HalfBelow(width + 1, den);
    assert (width + 1) * den == top + den;
  }

  /** A zero fraction gives an all-'.' bar. */
  lemma EmptyBar(width: int, den: int)
    requires den > 0
    ensures MakeBar(width, 0, den) == "[" + Repeat('.', width) + "]"
  {
    RoundDivUnique(width * 0, den, 0);
  }

  /** A whole fraction gives an all-'#' bar. */
  lemma FullBar(width: int, den: int)
    requires den > 0
    ensures MakeBar(width, den, den) == "[" + Repeat('#', width) + "]"
  {
    RoundDivUnique(width * den, den, width);
    assert Repeat('.', 0) == [];
  }

  /** `max(10, min(40, cols // 4))`. */
  function BarWidth(cols: int): int {
    var q := cols / 4;
    if q > 40 then 40 else if q < 10 then 10 else q
  }

  /** The dashboard's bar width lies between 10 and 40, and is a quarter of
      the terminal width between those limits. */
  lemma BarWidthRange(cols: int)
    ensures 10 <= BarWidth(cols) <= 40
    ensures 40 <= cols < 164 ==> BarWidth(cols) == cols / 4
    ensures cols < 44 ==> BarWidth(cols) == 10
    ensures cols >= 160 ==> BarWidth(cols) == 40
  {
  }

  /** `f"{x:n}"` for a string of digits: right-aligned in `n` columns. */
  function PadLeft(s: string, n: int): (r: string)
    ensures |r| == (if n > |s| then n else |s|)
    ensures EndsWith(r, s)
    ensures forall i :: 0 <= i < |r| - |s| ==> r[i] == ' '
  {
    var r := Repeat(' ', n - |s|) + s;
    assert r[|r| - |s|..] == s;
    r
  }

  /** `f"{pct:5.1f}"` for a load of `tenths` tenths of a percent. */
  function PercentText(tenths: nat): string {
    PadLeft(NatToStr(tenths / 10) + "." + [DigitChar(tenths % 10)], 5)
  }

  /** Up to 999.9 the percentage takes exactly five columns, and it always
      ends with the tenths digit after a point. */
  lemma PercentTextWidth(tenths: nat)
    ensures var t := PercentText(tenths);
      && (tenths < 10000 ==> |t| == 5)
      && |t| >= 5
      && t[|t| - 2] == '.' && t[|t| - 1] == DigitChar(tenths % 10)
  {
    var w := NatToStr(tenths / 10);
    var s := w + "." + [DigitChar(tenths % 10)];
    if tenths < 10000 {
      NatToStrShort(tenths / 10);
    }
    var t := PercentText(tenths);
    assert t[|t| - |s|..] == s;
    assert t[|t| - 2] == s[|s| - 2];
  }

  /** A number below 1000 has at most three digits. */
  lemma NatToStrShort(n: nat)
    requires n < 1000
    ensures |NatToStr(n)| <= 3
  {
    if n >= 10 {
      assert NatToStr(n) == NatToStr(n / 10) + [DigitChar(n % 10)];
      if n / 10 >= 10 {
        assert NatToStr(n / 10) == NatToStr(n / 100) + [DigitChar(n / 10 % 10)];
      }
    }
  }

  /** The line for core `i` with a load of `tenths` tenths of a percent: the
      bar shows the fraction `tenths / 1000`. */
  function CoreLine(i: nat, tenths: nat, width: int): string {
    " Core " + PadLeft(NatToStr(i), 2) + ": " + MakeBar(width, tenths, 1000) + " " + PercentText(tenths) + "%"
  }

  /** The core lines for the loads `loads`, one per core in core order. */
  function CoreLines(loads: seq<nat>, width: int): (r: seq<string>)
    ensures |r| == |loads|
  {
    seq(|loads|, k requires 0 <= k < |loads| => CoreLine(k, loads[k], width))
  }

  /** The lines of the dashboard: `cols` is the terminal width, `loads` the
      per-core loads in tenths of a percent, `used` and `total` the RAM in
      bytes, and `ramFigures` the text after the RAM bar (its numbers are
      floating-point and not part of this model). A zero total raises. */
  method SnapshotDashboard(cols: int, loads: seq<nat>, used: int, total: int, ramFigures: string)
    returns (text: Option<string>)
    ensures total == 0 ==> text.None?
    ensures total > 0 ==> text == Some(JoinWith("\n", DashboardLines(cols, loads, used, total, ramFigures)))
    ensures total < 0 ==> text == Some(JoinWith("\n", DashboardLines(cols, loads, -used, -total, ramFigures)))
  {
    var width := BarWidth(cols);
    var lines := ["CPU Usage:"];
    for i := 0 to |loads|
      invariant lines == ["CPU Usage:"] + CoreLines(loads, width)[..i]
    {
      lines := lines + [CoreLine(i, loads[i], width)];
    }
    assert CoreLines(loads, width)[..|loads|] == CoreLines(loads, width);
    if total == 0 {
      return None;
    }
    var bar := if total > 0 then MakeBar(width, used, total) else MakeBar(width, -used, -total);
    lines := lines + ["RAM Usage:", " " + bar + " " + ramFigures];
    text := Some(JoinWith("\n", lines));
  }

  /** The dashboard's lines for a positive RAM total. */
  function DashboardLines(cols: int, loads: seq<nat>, used: int, total: int, ramFigures: string): seq<string>
    requires total > 0
  {
    var width := BarWidth(cols);
    ["CPU Usage:"] + CoreLines(loads, width)
    + ["RAM Usage:", " " + MakeBar(width, used, total) + " " + ramFigures]
  }

  /** The dashboard: a heading, one line per core in core order, then the
      RAM heading and the RAM bar; every bar is as wide as the clamped
      terminal width says. */
  lemma DashboardShape(cols: int, loads: seq<nat>, used: int, total: int, ramFigures: string)
    requires total > 0
    ensures var lines := DashboardLines(cols, loads, used, total, ramFigures);
      && |lines| == |loads| + 3
      && lines[0] == "CPU Usage:"
      && lines[|loads| + 1] == "RAM Usage:"
      && (forall k :: 0 <= k < |loads| ==> lines[k + 1] == CoreLine(k, loads[k], BarWidth(cols)))
      && lines[|loads| + 2] == " " + MakeBar(BarWidth(cols), used, total) + " " + ramFigures
  {
  }
}
