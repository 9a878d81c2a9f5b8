/** The reports page: which parameters an X-report request carries, how a
    Z-report resets the X data, and what choosing an interval does. */
module ReportsPage {
  import opened Wrappers
  import ReportRoute

  /** The server's time-range vocabulary. */
  predicate IsTimeRange(r: string) {
    r == "daily" || r == "weekly" || r == "monthly" || r == "yearly"
  }

  /** Maps an interval of the selector to a server time range; unknown
      intervals, "custom" included, fall back to "daily". */
  function MapIntervalToTimeRange(interval: string): (r: string)
    ensures IsTimeRange(r)
    ensures r == "weekly" <==> interval == "thisWeek"
    ensures r == "monthly" <==> interval == "thisMonth"
    ensures r == "yearly" <==> interval == "thisYear"
    ensures r == "daily" <==> interval != "thisWeek" && interval != "thisMonth" && interval != "thisYear"
  {
    match interval
    case "pastHour" => "daily"
    case "today" => "daily"
    case "thisWeek" => "weekly"
    case "thisMonth" => "monthly"
    case "thisYear" => "yearly"
    case _ => "daily"
  }

  datatype ProductRow = ProductRow(name: string, quantity: int, total: real)

  /** The report record the page displays. */
  datatype ReportData = ReportData(
    totalOrders: int, subtotal: real, totalTax: real, totalSales: real,
    timeRange: string, periodName: string, timeUnitName: string,
    startDate: string, endDate: string,
    hourlySales: seq<ReportRoute.HourlyRow>,
    productSales: seq<ProductRow>,
    employeePerformance: seq<ReportRoute.EmployeeRow>)

  /** The page's state; the date and time fields are the custom-range inputs. */
  datatype Page = Page(
    selectedInterval: string,
    startDate: string, endDate: string, startTime: string, endTime: string,
    xData: Option<ReportData>, zData: Option<ReportData>,
    zGenerated: bool, showZConfirm: bool)

  /** The query string of an X-report request; each field may be absent. */
  datatype Params = Params(startDate: Option<string>, endDate: Option<string>, timeRange: Option<string>)

  /** A custom range sends its two "<date> <time>" bounds and nothing else;
      every other interval sends only the mapped time range. */
  function XReportParams(p: Page, interval: string): (q: Params)
    ensures interval == "custom" ==>
      q == Params(Some(p.startDate + " " + p.startTime), Some(p.endDate + " " + p.endTime), None)
    ensures interval != "custom" ==>
      q.startDate == None && q.endDate == None && q.timeRange.Some? && IsTimeRange(q.timeRange.value)
    ensures interval != "custom" ==> q.timeRange == Some(MapIntervalToTimeRange(interval))
  {
    if interval == "custom" then
      Params(Some(p.startDate + " " + p.startTime), Some(p.endDate + " " + p.endTime), None)
    else
      Params(None, None, Some(MapIntervalToTimeRange(interval)))
  }

  /** Exactly one of the two ways of naming a period is sent. */
  lemma ParamsExclusive(p: Page, interval: string)
    ensures var q := XReportParams(p, interval);
      (q.timeRange.Some? <==> q.startDate.None?) && (q.startDate.Some? <==> q.endDate.Some?)
  {
  }

  /** The server's reply to a report request: a thrown request (network error
      or non-2xx status), or a body whose `data` may be missing. */
  datatype Reply = Threw | Responded(data: Option<ReportData>)

  /** `fetchXReport`: the reply's data is shown; a missing `data` or a thrown
      request clears the X data. */
  function FetchXReport(p: Page, reply: Reply): (r: Page)
    ensures reply.Responded? && reply.data.Some? ==> r.xData == reply.data
    ensures !(reply.Responded? && reply.data.Some?) ==> r.xData == None
    ensures r.(xData := p.xData) == p
  {
    match reply
    case Responded(Some(d)) => p.(xData := Some(d))
    case _ => p.(xData := None)
  }

  /** The X data shown after a Z-report: all figures zero, all lists empty,
      and the mapped time range. */
  function ZeroReport(timeRange: string): (d: ReportData)
    ensures d.totalOrders == 0 && d.subtotal == 0.0 && d.totalTax == 0.0 && d.totalSales == 0.0
    ensures d.hourlySales == [] && d.productSales == [] && d.employeePerformance == []
    ensures d.timeRange == timeRange
  {
    ReportData(0, 0.0, 0.0, 0.0, timeRange, "", "", "", "", [], [], [])
  }

  /** The zeroed record carries the same figures the report endpoint computes
      for a day without orders. */
  lemma ZeroReportMatchesEmptyDay(timeRange: string, day: int)
    ensures var t := ReportRoute.DayTotals([], day);
      var z := ZeroReport(timeRange);
      z.totalOrders == t.totalOrders && z.subtotal == t.subtotal
      && z.totalTax == t.totalTax && z.totalSales == t.totalSales
    ensures ReportRoute.HourlySales([], day) == ZeroReport(timeRange).hourlySales
  {
    EmptyHourly([], day, 0);
  }

  lemma {:induction false} EmptyHourly(orders: seq<ReportRoute.Order>, day: int, h: nat)
    requires |orders| == 0 && h <= 24
    ensures ReportRoute.HourlyFrom(orders, day, h) == []
    decreases 24 - h
  {
    if h < 24 {
      EmptyHourly(orders, day, h + 1);
    }
  }

  /** `generateZReport`: on a reply with data the Z data is stored, the flag is
      set and the X data is zeroed; a reply without data only closes the
      confirmation; a thrown request changes nothing. */
  function GenerateZReport(p: Page, reply: Reply): (r: Page)
    ensures reply.Responded? && reply.data.Some? ==>
      r.zData == reply.data && r.zGenerated && !r.showZConfirm
      && r.xData == Some(ZeroReport(MapIntervalToTimeRange(p.selectedInterval)))
    ensures reply.Responded? && reply.data.None? ==> r == p.(showZConfirm := false)
    ensures reply.Threw? ==> r == p
    ensures r.selectedInterval == p.selectedInterval
  {
    match reply
    case Threw => p
    case Responded(None) => p.(showZConfirm := false)
    case Responded(Some(d)) =>
      p.(zData := Some(d), zGenerated := true, showZConfirm := false,
         xData := Some(ZeroReport(MapIntervalToTimeRange(p.selectedInterval))))
  }

  /** Today's date and the first days of the current week, month and year, as
      "YYYY-MM-DD" strings; the clock is outside the model. */
  datatype Calendar = Calendar(today: string, weekStart: string, monthStart: string, yearStart: string)

  /** The intervals the selector fetches a report for. */
  predicate Fetches(interval: string) {
    interval == "pastHour" || interval == "today" || interval == "thisWeek"
    || interval == "thisMonth" || interval == "thisYear"
  }

  /** `handleIntervalChange`: records the interval; "custom" clears the X data
      and fetches nothing; the five named intervals set the date range and
      fetch that interval (pastHour keeps the old dates); anything else only
      records the selection. The second result is the interval fetched. */
  function HandleIntervalChange(p: Page, interval: string, cal: Calendar): (r: (Page, Option<string>))
    ensures r.0.selectedInterval == interval
    ensures interval == "custom" ==> r.1 == None && r.0 == p.(selectedInterval := interval, xData := None)
    ensures r.1.Some? <==> Fetches(interval)
    ensures r.1.Some? ==> r.1.value == interval && r.0.xData == p.xData
    ensures !Fetches(interval) && interval != "custom" ==> r.0 == p.(selectedInterval := interval)
    ensures interval == "pastHour" ==> r.0 == p.(selectedInterval := interval)
    ensures Fetches(interval) && interval != "pastHour" ==>
      r.0 == p.(selectedInterval := interval, startDate := r.0.startDate, endDate := cal.today)
    ensures interval == "today" ==> r.0.startDate == cal.today
    ensures interval == "thisWeek" ==> r.0.startDate == cal.weekStart
    ensures interval == "thisMonth" ==> r.0.startDate == cal.monthStart
    ensures interval == "thisYear" ==> r.0.startDate == cal.yearStart
  {
    var q := p.(selectedInterval := interval);
    if interval == "custom" then (q.(xData := None), None)
    else match interval
      case "pastHour" => (q, Some(interval))
      case "today" => (q.(startDate := cal.today, endDate := cal.today), Some(interval))
      case "thisWeek" => (q.(startDate := cal.weekStart, endDate := cal.today), Some(interval))
      case "thisMonth" => (q.(startDate := cal.monthStart, endDate := cal.today), Some(interval))
      case "thisYear" => (q.(startDate := cal.yearStart, endDate := cal.today), Some(interval))
      case _ => (q, None)
  }

  /** Choosing the same interval again on the same day leaves the page as
      the first choice left it and fetches the same interval. */
  lemma IntervalChangeIdempotent(p: Page, interval: string, cal: Calendar)
    ensures var (q, fetched) := HandleIntervalChange(p, interval, cal);
      HandleIntervalChange(q, interval, cal) == (q, fetched)
  {
  }

  /** Every interval the selector fetches is sent as a time range, never as
      explicit dates. */
  lemma ChangeNeverSendsDates(p: Page, interval: string, cal: Calendar)
    ensures var (q, fetched) := HandleIntervalChange(p, interval, cal);
      fetched.Some? ==> XReportParams(q, fetched.value).startDate == None
  {
  }
}
