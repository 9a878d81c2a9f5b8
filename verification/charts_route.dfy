/** The usage-chart endpoints: the date range an interval name selects, and
    the "No Data" placeholder for an empty result. */
module ChartsRoute {
  import opened Wrappers
  import Strings

  const SecondsPerDay: int := 86400

  /** The current UTC time as the calendar fields the range needs: an absolute
      day number, the second of that day, the weekday (Monday = 0), the day of
      the month and the day of the year (both from 1). */
  datatype Now = Now(dayNumber: int, second: int, weekday: int, dayOfMonth: int, dayOfYear: int)

  /** The calendar fields agree with each other. */
  predicate Consistent(now: Now) {
    0 <= now.second < SecondsPerDay && 0 <= now.weekday <= 6
    && 1 <= now.dayOfMonth <= 31 && now.dayOfMonth <= now.dayOfYear <= 366
  }

  /** A moment as absolute seconds. */
  function Instant(now: Now): int {
    now.dayNumber * SecondsPerDay + now.second
  }

  /** The weekday of day `d`, counted from the weekday of today. */
  function WeekdayOf(now: Now, d: int): int {
    (now.weekday + (d - now.dayNumber)) % 7
  }

  /** The day on which each accepted interval starts. */
  function StartDay(now: Now, interval: string): int
    requires interval in {"day", "week", "month", "year"}
  {
    match interval
    case "day" => now.dayNumber
    case "week" => now.dayNumber - now.weekday
    case "month" => now.dayNumber - (now.dayOfMonth - 1)
    case _ => now.dayNumber - (now.dayOfYear - 1)
  }

  /** `get_date_range`: from midnight of the interval's first day until now;
      any other name is rejected (`ValueError`). */
  function GetDateRange(interval: string, now: Now): (r: Option<(int, int)>)
    requires Consistent(now)
    ensures r.Some? <==> interval in {"day", "week", "month", "year"}
    ensures r.Some? ==> r.value.0 <= r.value.1 == Instant(now)
    ensures r.Some? ==> r.value.0 % SecondsPerDay == 0
    ensures interval == "day" ==> r == Some((now.dayNumber * SecondsPerDay, Instant(now)))
    ensures interval == "week" ==> r.Some? && WeekdayOf(now, r.value.0 / SecondsPerDay) == 0
    ensures interval == "week" ==> r.Some? && 0 <= Instant(now) - r.value.0 < 7 * SecondsPerDay
    ensures interval == "month" ==> r.Some? && r.value.0 / SecondsPerDay + now.dayOfMonth - 1 == now.dayNumber
    ensures interval == "year" ==> r.Some? && r.value.0 / SecondsPerDay + now.dayOfYear - 1 == now.dayNumber
  {
    if interval in {"day", "week", "month", "year"} then
      var start := StartDay(now, interval) * SecondsPerDay;
      assert start / SecondsPerDay == StartDay(now, interval);
      Some((start, Instant(now)))
    else None
  }

  /** Longer intervals start no later than shorter ones: the year before the
      month before the day, and the week before the day. */
  lemma RangesNest(now: Now)
    requires Consistent(now)
    ensures GetDateRange("year", now).value.0 <= GetDateRange("month", now).value.0 <= GetDateRange("day", now).value.0
    ensures GetDateRange("week", now).value.0 <= GetDateRange("day", now).value.0
  {
  }

  /** One bar of a chart; `name` is sent as the JSON `label`. */
  datatype Point = Point(name: string, value: int)

  /** The placeholder sent instead of an empty chart. */
  const NoData: Point := Point("No Data", 0)

  /** An endpoint's answer: data, or 400 with the error message. */
  datatype Response = Ok(data: seq<Point>) | BadRequest(message: string)

  /** Both chart endpoints: the interval argument (default "daily") is lower-cased
      and turned into a range; `rows` is what the aggregate query returns for
      that range. An empty result becomes the single placeholder. */
  function ChartData(intervalArg: Option<string>, now: Now, rows: seq<Point>): (r: Response)
    requires Consistent(now)
    ensures r.Ok? <==> Strings.Lower(intervalArg.GetOr("daily")) in {"day", "week", "month", "year"}
    ensures r.BadRequest? ==> r.message == "Invalid interval provided"
    ensures r.Ok? ==> |r.data| > 0
    ensures r.Ok? && |rows| > 0 ==> r.data == rows
    ensures r.Ok? && |rows| == 0 ==> r.data == [NoData]
  {
    var interval := Strings.Lower(intervalArg.GetOr("daily"));
    match GetDateRange(interval, now)
    case None => BadRequest("Invalid interval provided")
    case Some(_) => if |rows| == 0 then Ok([NoData]) else Ok(rows)
  }

  /** A request without an interval is rejected: the default "daily" is not an
      interval name the range accepts. */
  lemma DefaultIntervalRejected(now: Now, rows: seq<Point>)
    requires Consistent(now)
    ensures ChartData(None, now, rows).BadRequest?
  {
    assert Strings.Lower("daily") == "daily";
  }

  /** Interval names are case-insensitive. */
  lemma UpperCaseAccepted(now: Now, rows: seq<Point>)
    requires Consistent(now)
    ensures ChartData(Some("DAY"), now, rows).Ok?
  {
    assert Strings.Lower("DAY") == "day";
  }

  /** The interval argument is read without regard to case: any spelling
      answers as its lower-case form does. */
  lemma CaseInsensitive(arg: string, now: Now, rows: seq<Point>)
    requires Consistent(now)
    ensures ChartData(Some(arg), now, rows) == ChartData(Some(Strings.Lower(arg)), now, rows)
  {
    Strings.LowerIdempotent(arg);
  }

  /** A range with no rows and a range whose only row is a "No Data" bar of
      value 0 get the same answer: the placeholder cannot be told apart from
      data. */
  lemma PlaceholderAmbiguous(intervalArg: Option<string>, now: Now)
    requires Consistent(now)
    ensures ChartData(intervalArg, now, []) == ChartData(intervalArg, now, [NoData])
  {
  }
}
