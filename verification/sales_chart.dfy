/** The growth badges of the dashboard's stat cards (components/SalesChart.tsx): the
    percentage change between the last two months that have data, its one-decimal
    rendering, its sign styling, and the "vs <month>" trend label. */
module SalesChart {
  import opened Text
  import opened Seqs
  import opened Analytics

  datatype Metric = Sales | Orders

  /** `m[dataKey]`. */
  function Value(m: MonthStat, metric: Metric): real {
    match metric
    case Sales => m.sales as real
    case Orders => m.orders as real
  }

  function HasData(metric: Metric): MonthStat -> bool {
    m => Value(m, metric) > 0.0
  }

  /** `monthlyData.filter(m => m[dataKey] > 0)`. */
  function WithData(monthly: seq<MonthStat>, metric: Metric): seq<MonthStat> {
    Filter(monthly, HasData(metric))
  }

  /** `previousMonth || 1`: zero is replaced by one. */
  function OrOne(x: real): (r: real)
    ensures r != 0.0
    ensures x != 0.0 ==> r == x
  {
    if x != 0.0 then x else 1.0
  }

  /** `getGrowth` before rendering: no figure, or the exact percentage change. */
  datatype Growth = NoData | Percent(value: real)

  /** `c` is the change from `previous` to `last`, in percent of `previous`. */
  predicate IsPercentChange(c: real, previous: real, last: real) {
    c * previous == (last - previous) * 100.0
  }

  /** `((last - previous) / (previous || 1)) * 100` for a positive `previous`. */
  function PercentChange(previous: real, last: real): (c: real)
    requires previous > 0.0
    ensures IsPercentChange(c, previous, last)
  {
    var q := (last - previous) / OrOne(previous);
    assert q * previous == last - previous;
    q * 100.0
  }

  /** `getGrowth`: fewer than two months with data gives no figure; otherwise the change
      from the second-to-last to the last month with data, in percent. */
  function GrowthOf(monthly: seq<MonthStat>, metric: Metric): (g: Growth)
    ensures g.NoData? <==> |WithData(monthly, metric)| < 2
    ensures g.Percent? ==>
      IsPercentChange(g.value, Value(LastTwo(monthly, metric).0, metric), Value(LastTwo(monthly, metric).1, metric))
  {
    if |monthly| < 2 then NoData
    else
      var d := WithData(monthly, metric);
      if |d| < 2 then NoData
      else Percent(PercentChange(Value(d[|d| - 2], metric), Value(d[|d| - 1], metric)))
  }

  /** The month at `i` and the month at `j` are the last two months with data, in
      calendar order. */
  predicate LastTwoAt(monthly: seq<MonthStat>, metric: Metric, i: int, j: int) {
    && 0 <= i < j < |monthly|
    && Value(monthly[i], metric) > 0.0 && Value(monthly[j], metric) > 0.0
    && forall m :: i < m < |monthly| && m != j ==> Value(monthly[m], metric) <= 0.0
  }

  /** The last two months with data, as the growth and the label both read them. */
  function LastTwo(monthly: seq<MonthStat>, metric: Metric): (p: (MonthStat, MonthStat))
    requires |WithData(monthly, metric)| >= 2
    ensures Value(p.0, metric) > 0.0 && Value(p.1, metric) > 0.0
    ensures exists i, j :: LastTwoAt(monthly, metric, i, j) && monthly[i] == p.0 && monthly[j] == p.1
  {
    var d := WithData(monthly, metric);
    LastTwoPositions(monthly, metric);
    (d[|d| - 2], d[|d| - 1])
  }

  /** Where the last two months with data sit in the chart. */
  lemma LastTwoPositions(monthly: seq<MonthStat>, metric: Metric)
    requires |WithData(monthly, metric)| >= 2
    ensures var d := WithData(monthly, metric);
      exists i, j :: LastTwoAt(monthly, metric, i, j) && monthly[i] == d[|d| - 2] && monthly[j] == d[|d| - 1]
  {
    var d := WithData(monthly, metric);
    var j := FilterLast(monthly, HasData(metric));
    var before := monthly[..j];
    assert Filter(before, HasData(metric)) == d[..|d| - 1];
    var i := FilterLast(before, HasData(metric));
    assert before[i] == d[|d| - 2];
    forall m | i < m < |monthly| && m != j
      ensures Value(monthly[m], metric) <= 0.0
    {
      if m < j {
        assert !HasData(metric)(before[m]);
      } else {
        assert !HasData(metric)(monthly[m]);
      }
    }
    assert LastTwoAt(monthly, metric, i, j) && monthly[i] == d[|d| - 2] && monthly[j] == d[|d| - 1];
  }

  /** The growth is positive, zero or negative as the last month with data is above, equal
      to or below the one before it, and never reaches -100%. The `|| 1` never applies,
      because only months with a positive value are compared. */
  lemma GrowthSign(monthly: seq<MonthStat>, metric: Metric)
    requires GrowthOf(monthly, metric).Percent?
    ensures var g := GrowthOf(monthly, metric).value;
      var previous := Value(LastTwo(monthly, metric).0, metric);
      var last := Value(LastTwo(monthly, metric).1, metric);
      && (g > 0.0 <==> last > previous)
      && (g == 0.0 <==> last == previous)
      && (g < 0.0 <==> last < previous)
      && g > -100.0
  {
    ChangeSign(GrowthOf(monthly, metric).value, Value(LastTwo(monthly, metric).0, metric),
               Value(LastTwo(monthly, metric).1, metric));
  }

  /** A percentage change from a positive value to a positive value has the sign of the
      difference and is above -100. */
  lemma ChangeSign(c: real, previous: real, last: real)
    requires previous > 0.0 && last > 0.0 && IsPercentChange(c, previous, last)
    ensures c > 0.0 <==> last > previous
    ensures c == 0.0 <==> last == previous
    ensures c < 0.0 <==> last < previous
    ensures c > -100.0
  {
    QuotientSign((last - previous) * 100.0, previous, c);
    assert (c + 100.0) * previous == last * 100.0;
    QuotientSign(last * 100.0, previous, c + 100.0);
  }

  /** Dividing by a positive number keeps the sign. */
  lemma QuotientSign(a: real, b: real, q: real)
    requires b > 0.0 && q * b == a
    ensures q > 0.0 <==> a > 0.0
    ensures q == 0.0 <==> a == 0.0
    ensures q < 0.0 <==> a < 0.0
  {
    if q > 0.0 {
      assert q * b > 0.0;
    } else if q < 0.0 {
      assert (-q) * b > 0.0;
    }
  }

  // ---------------------------------------------------------------------------
  // `toFixed(1)` and the badge text
  // ---------------------------------------------------------------------------

  /** The string `x.toFixed(1)` produces: a minus sign when `x` is negative, then the
      absolute value rounded to tenths (the nearer multiple, the larger one on a tie). */
  datatype Fixed1 = Fixed1(negative: bool, tenths: nat)

  function ToFixed1(x: real): (f: Fixed1)
    ensures f.negative <==> x < 0.0
    ensures var a := if x < 0.0 then -x else x;
      a - 0.05 < f.tenths as real / 10.0 <= a + 0.05
  {
    var a := if x < 0.0 then -x else x;
    Fixed1(x < 0.0, (a * 10.0 + 0.5).Floor)
  }

  /** The characters of `x.toFixed(1)`. */
  function Render(f: Fixed1): (s: string)
    ensures |s| >= 3
    ensures s[0] == '-' <==> f.negative
    ensures s[|s| - 2] == '.' && '0' <= s[|s| - 1] <= '9'
    ensures var whole := s[(if f.negative then 1 else 0)..|s| - 2];
      && |whole| >= 1
      && (forall k :: 0 <= k < |whole| ==> '0' <= whole[k] <= '9')
      && DecimalValue(whole) * 10 + DigitValue(s[|s| - 1]) == f.tenths
  {
    var sign := if f.negative then "-" else "";
    var whole := Digits(f.tenths / 10);
    var s := sign + whole + "." + [Digit(f.tenths % 10)];
    DigitsRoundTrip(f.tenths / 10);
    assert s[|sign|..|s| - 2] == whole;
    s
  }

  /** The text `getGrowth` returns: "0" without data, otherwise `toFixed(1)`. */
  function GrowthText(g: Growth): (s: string)
    ensures |s| >= 1
    ensures g.NoData? ==> s == "0"
  {
    match g
    case NoData => "0"
    case Percent(v) => Render(ToFixed1(v))
  }

  /** One growth badge: its text and whether it is styled positive (emerald). */
  datatype Badge = Badge(text: string, positive: bool)

  /** `Number(revenueGrowth) >= 0` as written: "-0.0" converts to negative zero, and
      negative zero is `>= 0`. */
  predicate NumberIsNonNegative(g: Growth) {
    match g
    case NoData => true
    case Percent(v) => !ToFixed1(v).negative || ToFixed1(v).tenths == 0
  }

  /** The badge as written: a "+" and the positive style whenever `Number(text) >= 0`. */
  function BadgeAsWritten(g: Growth): (b: Badge)
    ensures |b.text| >= 2
    ensures b.positive <==> NumberIsNonNegative(g)
    ensures b.positive ==> b.text[0] == '+'
  {
    var positive := NumberIsNonNegative(g);
    Badge((if positive then "+" else "") + GrowthText(g) + "%", positive)
  }

  /** A fall of one unit in ten thousand: sales of 10000 then 9999 give "+-0.0%",
      styled as a rise. */
  lemma BadgeAsWrittenShowsPlusMinus()
    ensures var monthly := [MonthStat("May", 10000, 1), MonthStat("Jun", 9999, 1)];
      && GrowthOf(monthly, Sales) == Percent(-0.01)
      && BadgeAsWritten(GrowthOf(monthly, Sales)) == Badge("+-0.0%", true)
  {
    SmallDropGrowth();
    SmallDropBadge();
  }

  lemma SmallDropGrowth()
    ensures GrowthOf([MonthStat("May", 10000, 1), MonthStat("Jun", 9999, 1)], Sales) == Percent(-0.01)
  {
    var monthly := [MonthStat("May", 10000, 1), MonthStat("Jun", 9999, 1)];
    assert monthly[..1] == [MonthStat("May", 10000, 1)];
    assert monthly[..1][..0] == [];
    assert WithData(monthly, Sales) == monthly;
    SmallDropPercent();
  }

  lemma SmallDropPercent()
    ensures PercentChange(10000.0, 9999.0) == -0.01
  {
    assert OrOne(10000.0) == 10000.0;
  }

  lemma SmallDropBadge()
    ensures BadgeAsWritten(Percent(-0.01)) == Badge("+-0.0%", true)
  {
    assert ToFixed1(-0.01) == Fixed1(true, 0);
    assert Render(Fixed1(true, 0)) == "-0.0" by {
      assert Digits(0) == "0";
    }
  }

  /** The badge with the sign taken from the rendered text: "+" exactly when the text
      does not already start with "-". */
  function GrowthBadge(g: Growth): (b: Badge)
    ensures b.positive <==> g.NoData? || g.value >= 0.0
  {
    var positive := GrowthText(g)[0] != '-';
    Badge((if positive then "+" else "") + GrowthText(g) + "%", positive)
  }

  /** The corrected badge carries exactly one sign, and it agrees with the style and
      with the sign of the growth. */
  lemma BadgeSignConsistent(g: Growth)
    ensures var b := GrowthBadge(g);
      && (b.text[0] == '+' <==> b.positive)
      && (b.text[0] == '+' || b.text[0] == '-')
      && b.text[1] != '-'
      && (b.positive <==> g.NoData? || g.value >= 0.0)
  {
    var s := GrowthText(g);
    if g.NoData? {
      assert s == "0";
    } else {
      var f := ToFixed1(g.value);
      assert s[0] == '-' <==> f.negative;
      var rest := Digits(f.tenths / 10) + "." + [Digit(f.tenths % 10)];
      assert '0' <= rest[0] <= '9';
      if f.negative {
        assert s == "-" + rest;
      } else {
        assert s == rest;
      }
    }
  }

  // ---------------------------------------------------------------------------
  // The trend label
  // ---------------------------------------------------------------------------

  /** `getTrendLabel`: "No previous data", or "vs " and the name of the earlier of the two
      months compared. */
  function TrendLabel(monthly: seq<MonthStat>, metric: Metric): (s: string)
    ensures |WithData(monthly, metric)| < 2 ==> s == "No previous data"
  {
    var d := WithData(monthly, metric);
    if |d| < 2 then "No previous data" else "vs " + d[|d| - 2].month
  }

  /** The label and the figure describe the same comparison: a figure exactly when the
      label names a month, and that month is the earlier of the two compared. */
  lemma LabelMatchesGrowth(monthly: seq<MonthStat>, metric: Metric)
    ensures GrowthOf(monthly, metric).NoData? <==> TrendLabel(monthly, metric) == "No previous data"
    ensures GrowthOf(monthly, metric).Percent? ==>
      TrendLabel(monthly, metric) == "vs " + LastTwo(monthly, metric).0.month
  {
    if |WithData(monthly, metric)| >= 2 {
      assert TrendLabel(monthly, metric)[0] == 'v';
    }
  }
}
