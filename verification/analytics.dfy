/** The dashboard analytics server action (app/actions/analytics.ts): revenue, order
    count, average order value, product count, and the last six months of sales. */
module Analytics {
  import opened Basics
  import opened Calendar
  import opened Seqs
  import opened OrderModel

  /** One entry of `last6Months`: the name, the month index (0 = January) and the year. */
  datatype MonthSlot = MonthSlot(name: string, monthIndex: int, year: int)

  /** Months counted from January of year 0: consecutive calendar months get
      consecutive numbers. */
  function MonthNumber(year: int, month: int): int {
    year * 12 + month
  }

  function SlotNumber(s: MonthSlot): int {
    MonthNumber(s.year, s.monthIndex)
  }

  /** The slot `i` months before the current month. */
  function SlotBefore(currentYear: int, currentMonth: int, i: int): MonthSlot
    requires 0 <= currentMonth < 12
  {
    var monthIndex := (currentMonth - i + 12) % 12;
    MonthSlot(MonthNames[monthIndex], monthIndex, if currentMonth - i < 0 then currentYear - 1 else currentYear)
  }

  /** `last6Months`: from five months ago up to the current month. */
  function LastSixMonths(currentYear: int, currentMonth: int): (w: seq<MonthSlot>)
    requires 0 <= currentMonth < 12
    ensures |w| == 6
    ensures forall k :: 0 <= k < 6 ==>
      && 0 <= w[k].monthIndex < 12
      && w[k].name == MonthNames[w[k].monthIndex]
      && SlotNumber(w[k]) == MonthNumber(currentYear, currentMonth) - 5 + k
    ensures w[5].monthIndex == currentMonth && w[5].year == currentYear
  {
    var w := seq(6, k requires 0 <= k < 6 => SlotBefore(currentYear, currentMonth, 5 - k));
    forall k | 0 <= k < 6
      ensures SlotNumber(w[k]) == MonthNumber(currentYear, currentMonth) - 5 + k
    {
      var i := 5 - k;
      if currentMonth - i < 0 {
        assert (currentMonth - i + 12) % 12 == currentMonth - i + 12;
      } else {
        assert (currentMonth - i + 12) % 12 == currentMonth - i;
      }
    }
    w
  }

  /** Two (year, month) pairs with months in 0 .. 11 name the same month only if equal. */
  lemma MonthNumberInjective(y: int, m: int, y': int, m': int)
    requires 0 <= m < 12 && 0 <= m' < 12
    ensures MonthNumber(y, m) == MonthNumber(y', m') <==> y == y' && m == m'
  {
    if y < y' {
      assert MonthNumber(y, m) < MonthNumber(y', m');
    } else if y' < y {
      assert MonthNumber(y', m') < MonthNumber(y, m);
    }
  }

  /** The order falls in the slot's month: `getMonth()` and `getFullYear()` match. */
  predicate InSlot(o: Order, s: MonthSlot) {
    o.createdAt.month == s.monthIndex && o.createdAt.year == s.year
  }

  function InMonth(s: MonthSlot): Order -> bool {
    o => InSlot(o, s)
  }

  /** The order was placed within the last six calendar months, the current one included. */
  predicate InLastSix(o: Order, currentYear: int, currentMonth: int) {
    var n := MonthNumber(o.createdAt.year, o.createdAt.month);
    && 0 <= o.createdAt.month < 12
    && MonthNumber(currentYear, currentMonth) - 5 <= n <= MonthNumber(currentYear, currentMonth)
  }

  function WithinLastSix(currentYear: int, currentMonth: int): Order -> bool {
    o => InLastSix(o, currentYear, currentMonth)
  }

  /** An order lands in at most one of the six slots, and in one exactly when it is
      from the last six months. */
  lemma OneSlotPerOrder(o: Order, currentYear: int, currentMonth: int)
    requires 0 <= currentMonth < 12
    ensures var w := LastSixMonths(currentYear, currentMonth);
      && (InLastSix(o, currentYear, currentMonth) <==> exists k :: 0 <= k < 6 && InSlot(o, w[k]))
      && (forall j, k :: 0 <= j < 6 && 0 <= k < 6 && InSlot(o, w[j]) && InSlot(o, w[k]) ==> j == k)
  {
    var w := LastSixMonths(currentYear, currentMonth);
    var base := MonthNumber(currentYear, currentMonth) - 5;
    if InLastSix(o, currentYear, currentMonth) {
      var k := MonthNumber(o.createdAt.year, o.createdAt.month) - base;
      MonthNumberInjective(o.createdAt.year, o.createdAt.month, w[k].year, w[k].monthIndex);
      assert InSlot(o, w[k]);
    }
  }

  /** One bar of the chart: `Math.round` of the month's sales, and its order count. */
  datatype MonthStat = MonthStat(month: string, sales: int, orders: nat)

  /** `Math.round`: to the nearest integer, halves upward. */
  function Round(x: real): (n: int)
    ensures n as real - 0.5 <= x < n as real + 0.5
  {
    (x + 0.5).Floor
  }

  function MonthOrders(orders: seq<Order>, s: MonthSlot): seq<Order> {
    Filter(orders, InMonth(s))
  }

  function StatOf(orders: seq<Order>, s: MonthSlot): MonthStat {
    var mine := MonthOrders(orders, s);
    MonthStat(s.name, Round(SumOf(mine, Amount)), |mine|)
  }

  /** The bars for a list of slots, in slot order. */
  function Stats(orders: seq<Order>, w: seq<MonthSlot>): (r: seq<MonthStat>)
    ensures |r| == |w|
    decreases |w|
  {
    if |w| == 0 then [] else Stats(orders, w[..|w| - 1]) + [StatOf(orders, w[|w| - 1])]
  }

  /** `getMonthlyData`, with the current year and month given. */
  function MonthlyData(orders: seq<Order>, currentYear: int, currentMonth: int): (r: seq<MonthStat>)
    requires 0 <= currentMonth < 12
    ensures |r| == 6
  {
    Stats(orders, LastSixMonths(currentYear, currentMonth))
  }

  /** Each bar is labelled with its month, counts the orders of that month and shows
      their sales rounded to the nearest integer. */
  lemma {:induction false} StatsPerSlot(orders: seq<Order>, w: seq<MonthSlot>)
    ensures forall k :: 0 <= k < |w| ==>
      && Stats(orders, w)[k].month == w[k].name
      && Stats(orders, w)[k].orders == |MonthOrders(orders, w[k])|
      && Stats(orders, w)[k].sales as real - 0.5 <= SumOf(MonthOrders(orders, w[k]), Amount)
      && SumOf(MonthOrders(orders, w[k]), Amount) < Stats(orders, w)[k].sales as real + 0.5
    decreases |w|
  {
    if |w| > 0 {
      StatsPerSlot(orders, w[..|w| - 1]);
    }
  }

  // ---------------------------------------------------------------------------
  // The six bars together account for every order of the window exactly once.
  // ---------------------------------------------------------------------------

  /** The sum over the slots of `f` summed over each slot's orders. */
  function SlotSum(orders: seq<Order>, w: seq<MonthSlot>, f: Order -> real): real
    decreases |w|
  {
    if |w| == 0 then 0.0
    else SlotSum(orders, w[..|w| - 1], f) + SumOf(MonthOrders(orders, w[|w| - 1]), f)
  }

  /** What one order contributes to `SlotSum`: `f` of it for every slot it falls in. */
  function HitWeight(o: Order, w: seq<MonthSlot>, f: Order -> real): real
    decreases |w|
  {
    if |w| == 0 then 0.0
    else HitWeight(o, w[..|w| - 1], f) + (if InSlot(o, w[|w| - 1]) then f(o) else 0.0)
  }

  /** The orders of a slot after one more order arrives. */
  lemma MonthOrdersAppend(orders: seq<Order>, o: Order, s: MonthSlot, f: Order -> real)
    ensures MonthOrders(orders + [o], s) == MonthOrders(orders, s) + (if InSlot(o, s) then [o] else [])
    ensures SumOf(MonthOrders(orders + [o], s), f) ==
      SumOf(MonthOrders(orders, s), f) + (if InSlot(o, s) then f(o) else 0.0)
  {
    assert (orders + [o])[..|orders|] == orders;
    var mine := MonthOrders(orders, s);
    if InSlot(o, s) {
      assert (mine + [o])[..|mine|] == mine;
    } else {
      assert mine + [] == mine;
    }
  }

  lemma {:induction false} SlotSumAppend(orders: seq<Order>, o: Order, w: seq<MonthSlot>, f: Order -> real)
    ensures SlotSum(orders + [o], w, f) == SlotSum(orders, w, f) + HitWeight(o, w, f)
    decreases |w|
  {
    if |w| > 0 {
      SlotSumAppend(orders, o, w[..|w| - 1], f);
      MonthOrdersAppend(orders, o, w[|w| - 1], f);
    }
  }

  /** Over slots for consecutive months, an order weighs `f` of it when its month is
      among them and nothing otherwise. */
  lemma {:induction false} HitWeightConsecutive(o: Order, w: seq<MonthSlot>, f: Order -> real, base: int)
    requires forall k :: 0 <= k < |w| ==> 0 <= w[k].monthIndex < 12 && SlotNumber(w[k]) == base + k
    ensures HitWeight(o, w, f) ==
      if 0 <= o.createdAt.month < 12 && base <= MonthNumber(o.createdAt.year, o.createdAt.month) < base + |w|
      then f(o) else 0.0
    decreases |w|
  {
    if |w| > 0 {
      var prefix := w[..|w| - 1];
      var last := w[|w| - 1];
      assert forall k :: 0 <= k < |prefix| ==> prefix[k] == w[k];
      HitWeightConsecutive(o, prefix, f, base);
      if 0 <= o.createdAt.month < 12 {
        MonthNumberInjective(o.createdAt.year, o.createdAt.month, last.year, last.monthIndex);
      }
    }
  }

  /** Summed over the six slots, `f` adds up to its sum over the window's orders. */
  lemma {:induction false} SlotSumWindow(orders: seq<Order>, currentYear: int, currentMonth: int, f: Order -> real)
    requires 0 <= currentMonth < 12
    ensures SlotSum(orders, LastSixMonths(currentYear, currentMonth), f) ==
      SumOf(Filter(orders, WithinLastSix(currentYear, currentMonth)), f)
    decreases |orders|
  {
    var w := LastSixMonths(currentYear, currentMonth);
    if |orders| == 0 {
      SlotSumEmpty(w, f);
    } else {
      var prefix := orders[..|orders| - 1];
      var o := orders[|orders| - 1];
      assert prefix + [o] == orders;
      SlotSumWindow(prefix, currentYear, currentMonth, f);
      SlotSumAppend(prefix, o, w, f);
      HitWeightConsecutive(o, w, f, MonthNumber(currentYear, currentMonth) - 5);
      FilterSumAppend(prefix, o, WithinLastSix(currentYear, currentMonth), f);
    }
  }

  lemma {:induction false} SlotSumEmpty(w: seq<MonthSlot>, f: Order -> real)
    ensures SlotSum([], w, f) == 0.0
    decreases |w|
  {
    if |w| > 0 {
      SlotSumEmpty(w[..|w| - 1], f);
    }
  }

  function One(o: Order): real {
    1.0
  }

  lemma {:induction false} CountIsSum(s: seq<Order>)
    ensures |s| as real == SumOf(s, One)
    decreases |s|
  {
    if |s| > 0 {
      CountIsSum(s[..|s| - 1]);
    }
  }

  /** The order counts of the bars, added up. */
  function BarOrders(stats: seq<MonthStat>): nat
    decreases |stats|
  {
    if |stats| == 0 then 0 else BarOrders(stats[..|stats| - 1]) + stats[|stats| - 1].orders
  }

  /** The sales of the bars, added up. */
  function BarSales(stats: seq<MonthStat>): int
    decreases |stats|
  {
    if |stats| == 0 then 0 else BarSales(stats[..|stats| - 1]) + stats[|stats| - 1].sales
  }

  lemma {:induction false} BarOrdersAreSlotSum(orders: seq<Order>, w: seq<MonthSlot>)
    ensures BarOrders(Stats(orders, w)) as real == SlotSum(orders, w, One)
    decreases |w|
  {
    if |w| > 0 {
      var prefix := w[..|w| - 1];
      BarOrdersAreSlotSum(orders, prefix);
      CountIsSum(MonthOrders(orders, w[|w| - 1]));
      assert Stats(orders, w)[..|w| - 1] == Stats(orders, prefix);
    }
  }

  lemma {:induction false} BarSalesNearSlotSum(orders: seq<Order>, w: seq<MonthSlot>)
    ensures SlotSum(orders, w, Amount) - 0.5 * (|w| as real) <= BarSales(Stats(orders, w)) as real
    ensures BarSales(Stats(orders, w)) as real <= SlotSum(orders, w, Amount) + 0.5 * (|w| as real)
    decreases |w|
  {
    if |w| > 0 {
      var prefix := w[..|w| - 1];
      BarSalesNearSlotSum(orders, prefix);
      assert Stats(orders, w)[..|w| - 1] == Stats(orders, prefix);
    }
  }

  /** Every order of the last six months is counted in exactly one bar and no other
      order is counted: the bars' order counts add up to the window's order count. */
  lemma MonthlyOrdersAddUp(orders: seq<Order>, currentYear: int, currentMonth: int)
    requires 0 <= currentMonth < 12
    ensures BarOrders(MonthlyData(orders, currentYear, currentMonth)) ==
      |Filter(orders, WithinLastSix(currentYear, currentMonth))|
  {
    var w := LastSixMonths(currentYear, currentMonth);
    BarOrdersAreSlotSum(orders, w);
    SlotSumWindow(orders, currentYear, currentMonth, One);
    CountIsSum(Filter(orders, WithinLastSix(currentYear, currentMonth)));
  }

  /** The bars' rounded sales add up to the window's revenue, give or take the six
      roundings. */
  lemma MonthlySalesAddUp(orders: seq<Order>, currentYear: int, currentMonth: int)
    requires 0 <= currentMonth < 12
    ensures var revenue := SumOf(Filter(orders, WithinLastSix(currentYear, currentMonth)), Amount);
      var shown := BarSales(MonthlyData(orders, currentYear, currentMonth)) as real;
      revenue - 3.0 <= shown <= revenue + 3.0
  {
    var w := LastSixMonths(currentYear, currentMonth);
    BarSalesNearSlotSum(orders, w);
    SlotSumWindow(orders, currentYear, currentMonth, Amount);
  }

  /** An order from outside the last six months changes no bar. */
  lemma OutsideWindowIgnored(orders: seq<Order>, o: Order, currentYear: int, currentMonth: int)
    requires 0 <= currentMonth < 12
    requires !InLastSix(o, currentYear, currentMonth)
    ensures MonthlyData(orders + [o], currentYear, currentMonth) == MonthlyData(orders, currentYear, currentMonth)
  {
    var w := LastSixMonths(currentYear, currentMonth);
    OneSlotPerOrder(o, currentYear, currentMonth);
    StatsUnchanged(orders, o, w);
  }

  lemma {:induction false} StatsUnchanged(orders: seq<Order>, o: Order, w: seq<MonthSlot>)
    requires forall k :: 0 <= k < |w| ==> !InSlot(o, w[k])
    ensures Stats(orders + [o], w) == Stats(orders, w)
    decreases |w|
  {
    if |w| > 0 {
      var prefix := w[..|w| - 1];
      assert forall k :: 0 <= k < |prefix| ==> prefix[k] == w[k];
      StatsUnchanged(orders, o, prefix);
      MonthOrdersAppend(orders, o, w[|w| - 1], Amount);
      assert MonthOrders(orders + [o], w[|w| - 1]) == MonthOrders(orders, w[|w| - 1]) + [];
    }
  }

  // ---------------------------------------------------------------------------
  // getAnalyticsData
  // ---------------------------------------------------------------------------

  datatype Summary = Summary(
    totalRevenue: real,
    totalOrders: nat,
    avgOrderValue: real,
    totalProducts: nat,
    monthlyData: seq<MonthStat>)

  /** What the dashboard shows when the database cannot be read. */
  const EmptySummary := Summary(0.0, 0, 0.0, 0, [])

  /** `getAnalyticsData`, with the current instant given: totals over every order, the
      product count, and the six monthly bars; zeros and no bars on any failure. */
  function GetAnalyticsData(orders: Fetch<seq<Order>>, productCount: Fetch<nat>, now: Timestamp): (r: Summary)
    requires 0 <= now.month < 12
    ensures orders.Unavailable? || productCount.Unavailable? ==> r == EmptySummary
    ensures orders.Fetched? && productCount.Fetched? ==>
      && r.totalRevenue == SumOf(orders.value, Amount)
      && r.totalOrders == |orders.value|
      && (r.totalOrders == 0 ==> r.avgOrderValue == 0.0)
      && (r.totalOrders > 0 ==> r.avgOrderValue == r.totalRevenue / (r.totalOrders as real))
      && r.totalProducts == productCount.value
      && r.monthlyData == MonthlyData(orders.value, now.year, now.month)
      && |r.monthlyData| == 6
  {
    match (orders, productCount)
    case (Fetched(os), Fetched(count)) =>
      var revenue := SumOf(os, Amount);
      var n := |os|;
      Summary(revenue, n, if n > 0 then revenue / (n as real) else 0.0, count,
              MonthlyData(os, now.year, now.month))
    case _ => EmptySummary
  }

  /** The dashboard's average order value lies between the smallest and the largest
      order total. */
  lemma AverageWithinOrderTotals(orders: seq<Order>, productCount: nat, now: Timestamp)
    requires 0 <= now.month < 12 && |orders| > 0
    ensures var r := GetAnalyticsData(Fetched(orders), Fetched(productCount), now);
      && (exists i :: 0 <= i < |orders| && orders[i].totalAmount <= r.avgOrderValue)
      && (exists j :: 0 <= j < |orders| && r.avgOrderValue <= orders[j].totalAmount)
  {
    MeanWithinRange(orders, Amount);
    var i :| 0 <= i < |orders| && Amount(orders[i]) <= SumOf(orders, Amount) / (|orders| as real);
    var j :| 0 <= j < |orders| && SumOf(orders, Amount) / (|orders| as real) <= Amount(orders[j]);
    assert orders[i].totalAmount == Amount(orders[i]);
  }
}
