/** Creation timestamps (`createdAt`, maintained by the schemas' `timestamps` option). */
module Calendar {

  /** An instant with its calendar projection: `epochMs` is what orders documents in
      time (`$sort`, `$max`, `$min`); `year` and `month` (0 = January) are what
      `getFullYear()` and `getMonth()` report for it in the server's time zone. */
  datatype Timestamp = Timestamp(epochMs: int, year: int, month: int)

  /** The labels `getMonthlyData` shows for month indices 0 .. 11. */
  const MonthNames: seq<string> :=
    ["Jan", "Feb", "Mar", "Apr", "May", "Jun", "Jul", "Aug", "Sep", "Oct", "Nov", "Dec"]

  /** The sort key of a timestamp: newer is larger. */
  function Recency(t: Timestamp): real {
    t.epochMs as real
  }

  /** `$max` of two dates: the later one (the first on a tie). */
  function Later(a: Timestamp, b: Timestamp): (r: Timestamp)
    ensures r == a || r == b
    ensures r.epochMs >= a.epochMs && r.epochMs >= b.epochMs
  {
    if b.epochMs > a.epochMs then b else a
  }

  /** `$min` of two dates: the earlier one (the first on a tie). */
  function Earlier(a: Timestamp, b: Timestamp): (r: Timestamp)
    ensures r == a || r == b
    ensures r.epochMs <= a.epochMs && r.epochMs <= b.epochMs
  {
    if b.epochMs < a.epochMs then b else a
  }
}
