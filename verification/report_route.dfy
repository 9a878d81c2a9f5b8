/** The X- and Z-report arithmetic of the reports endpoints, with the SQL
    aggregates written as folds over the order table. */
module ReportRoute {
  import Seqs

  /** The flat sales-tax rate the report endpoints apply, 8.25%. */
  const TaxRate: real := 0.0825

  const SecondsPerHour: int := 3600
  const SecondsPerDay: int := 86400

  /** An order row: the employee who took it, its total, the day it was
      placed on and the second of that day. */
  datatype Order = Order(id: string, employeeId: string, total: real, day: int, second: int)

  /** The time of day lies within the day. */
  predicate WellTimed(orders: seq<Order>) {
    forall i :: 0 <= i < |orders| ==> 0 <= orders[i].second < SecondsPerDay
  }

  predicate TotalsNonNegative(orders: seq<Order>) {
    forall i :: 0 <= i < |orders| ==> orders[i].total >= 0.0
  }

  /** `COUNT(*)` of the orders placed on `day`. */
  function DayCount(orders: seq<Order>, day: int): (n: nat)
    ensures n <= |orders|
  {
    if |orders| == 0 then 0
    else (if orders[0].day == day then 1 else 0) + DayCount(orders[1..], day)
  }

  /** `SUM(total)` of the orders placed on `day`; an empty sum is 0 (`or 0`). */
  function DaySum(orders: seq<Order>, day: int): (s: real)
    ensures TotalsNonNegative(orders) ==> s >= 0.0
  {
    if |orders| == 0 then 0.0
    else (if orders[0].day == day then orders[0].total else 0.0) + DaySum(orders[1..], day)
  }

  /** The headline figures both reports share. */
  datatype SalesTotals = SalesTotals(totalOrders: nat, subtotal: real, totalTax: real, totalSales: real)

  /** Subtotal, tax and total sales for `day`; the X and Z reports both use
      this computation. */
  function DayTotals(orders: seq<Order>, day: int): (t: SalesTotals)
    ensures t.totalOrders == DayCount(orders, day)
    ensures t.subtotal == DaySum(orders, day)
    ensures t.totalTax == t.subtotal * TaxRate
    ensures t.totalSales == t.subtotal * (1.0 + TaxRate)
    ensures DayCount(orders, day) == 0 ==> t.subtotal == 0.0 && t.totalSales == 0.0
  {
    assert DayCount(orders, day) == 0 ==> DaySum(orders, day) == 0.0 by {
      if DayCount(orders, day) == 0 { NoOrdersNoSales(orders, day); }
    }
    var subtotal := DaySum(orders, day);
    var tax := subtotal * TaxRate;
    SalesTotals(DayCount(orders, day), subtotal, tax, subtotal + tax)
  }

  lemma {:induction false} NoOrdersNoSales(orders: seq<Order>, day: int)
    requires DayCount(orders, day) == 0
    ensures DaySum(orders, day) == 0.0
  {
    if |orders| > 0 {
      NoOrdersNoSales(orders[1..], day);
    }
  }

  /** The order lies in the half-open hour `[h:00, h+1:00)` of `day`. */
  predicate InHour(o: Order, day: int, h: int) {
    o.day == day && h * SecondsPerHour <= o.second < (h + 1) * SecondsPerHour
  }

  /** `SUM(total)` over one hour of `day`. */
  function HourSum(orders: seq<Order>, day: int, h: int): (s: real)
    ensures TotalsNonNegative(orders) ==> s >= 0.0
  {
    if |orders| == 0 then 0.0
    else (if InHour(orders[0], day, h) then orders[0].total else 0.0) + HourSum(orders[1..], day, h)
  }

  /** One emitted hour of the hourly breakdown. */
  datatype HourlyRow = HourlyRow(hour: string, total: real)

  const Digits: string := "0123456789"

  /** The hour on a 12-hour clock: 1 to 12, agreeing with `h` modulo 12. */
  function Clock12(h: int): (c: int)
    requires 0 <= h < 24
    ensures 1 <= c <= 12 && c % 12 == h % 12
  {
    if h % 12 == 0 then 12 else h % 12
  }

  /** The value of a decimal digit character. */
  function DigitValue(c: char): int {
    c as int - '0' as int
  }

  /** `strftime("%I:%M %p")` of hour `h` on the hour: a two-digit 12-hour clock
      and AM/PM. */
  function HourLabel(h: int): (r: string)
    requires 0 <= h < 24
    ensures |r| == 8
    ensures r[2..] == ":00 AM" || r[2..] == ":00 PM"
    ensures r[2..] == ":00 AM" <==> h < 12
  {
    var twelve := Clock12(h);
    var clock := [Digits[twelve / 10], Digits[twelve % 10]];
    var suffix := if h < 12 then "AM" else "PM";
    assert (clock + ":00 " + suffix)[2..] == ":00 " + suffix;
    assert (":00 " + suffix)[4] == suffix[0];
    clock + ":00 " + suffix
  }

  /** The first two characters of a label are the decimal digits of the
      hour on the 12-hour clock. */
  lemma HourLabelDigits(h: int)
    requires 0 <= h < 24
    ensures var r := HourLabel(h);
      '0' <= r[0] <= '9' && '0' <= r[1] <= '9' && 10 * DigitValue(r[0]) + DigitValue(r[1]) == Clock12(h)
  {
    var c := Clock12(h);
    assert HourLabel(h)[0] == Digits[c / 10] && HourLabel(h)[1] == Digits[c % 10];
  }

  /** Different hours get different labels: the label determines the hour. */
  lemma HourLabelInjective(g: int, h: int)
    requires 0 <= g < 24 && 0 <= h < 24
    requires HourLabel(g) == HourLabel(h)
    ensures g == h
  {
    HourLabelDigits(g);
    HourLabelDigits(h);
    assert HourLabel(g)[0] == HourLabel(h)[0] && HourLabel(g)[1] == HourLabel(h)[1];
    assert Clock12(g) == Clock12(h);
    assert HourLabel(g)[2..] == HourLabel(h)[2..];
    assert (g < 12) == (h < 12);
  }

  lemma HourLabelExamples()
    ensures HourLabel(0) == "12:00 AM"
    ensures HourLabel(13) == "01:00 PM"
    ensures HourLabel(12) == "12:00 PM"
  {
  }

  /** The 24 hourly totals of `day`, hour by hour. */
  function HourTotals(orders: seq<Order>, day: int): (ts: seq<real>)
    ensures |ts| == 24
    ensures forall g :: 0 <= g < 24 ==> ts[g] == HourSum(orders, day, g)
  {
    seq(24, g requires 0 <= g < 24 => HourSum(orders, day, g))
  }

  /** Selects a positive total, as `if hour_total > 0` does. */
  function Positive(): real -> bool {
    x => x > 0.0
  }

  /** The hours from `h` to 23 whose total is positive, in ascending order
      (`Seqs.KeptIncreasing`, `Seqs.KeptComplete`). */
  function PositiveHours(orders: seq<Order>, day: int, h: nat): (hs: seq<nat>)
    requires h <= 24
    ensures forall k :: 0 <= k < |hs| ==> h <= hs[k] < 24 && HourSum(orders, day, hs[k]) > 0.0
  {
    Seqs.Kept(HourTotals(orders, day), Positive(), h)
  }

  /** The hourly breakdown from hour `h` to 23: one row per hour whose total
      is positive, labelled with that hour and carrying its total, in
      ascending hour order. */
  function HourlyFrom(orders: seq<Order>, day: int, h: nat): (rows: seq<HourlyRow>)
    requires h <= 24
    ensures |rows| == |PositiveHours(orders, day, h)| <= 24 - h
    ensures forall k :: 0 <= k < |rows| ==>
      var g := PositiveHours(orders, day, h)[k];
      rows[k] == HourlyRow(HourLabel(g), HourSum(orders, day, g))
    ensures forall i :: 0 <= i < |rows| ==> rows[i].total > 0.0
    decreases 24 - h
  {
    if h == 24 then []
    else
      var total := HourSum(orders, day, h);
      var rest := HourlyFrom(orders, day, h + 1);
      var ts := HourTotals(orders, day);
      Seqs.KeptCons(ts, Positive(), h);
      assert ts[h] == total;
      if total > 0.0 then
        HourlyCons(orders, day, h, rest);
        [HourlyRow(HourLabel(h), total)] + rest
      else rest
  }

  /** Prepending hour `h`'s row to the rows of the later positive hours
      gives the rows of the positive hours from `h`. */
  lemma HourlyCons(orders: seq<Order>, day: int, h: nat, rest: seq<HourlyRow>)
    requires h < 24 && HourSum(orders, day, h) > 0.0
    requires PositiveHours(orders, day, h) == [h] + PositiveHours(orders, day, h + 1)
    requires |rest| == |PositiveHours(orders, day, h + 1)|
    requires forall k :: 0 <= k < |rest| ==>
      var g := PositiveHours(orders, day, h + 1)[k];
      rest[k] == HourlyRow(HourLabel(g), HourSum(orders, day, g))
    ensures var out := [HourlyRow(HourLabel(h), HourSum(orders, day, h))] + rest;
      forall k :: 0 <= k < |out| ==>
        var g := PositiveHours(orders, day, h)[k];
        out[k] == HourlyRow(HourLabel(g), HourSum(orders, day, g))
  {
    var out := [HourlyRow(HourLabel(h), HourSum(orders, day, h))] + rest;
    var hs, hs' := PositiveHours(orders, day, h), PositiveHours(orders, day, h + 1);
    forall k | 0 <= k < |out|
      ensures out[k] == HourlyRow(HourLabel(hs[k]), HourSum(orders, day, hs[k]))
    {
      if k > 0 {
        assert out[k] == rest[k - 1] && hs[k] == hs'[k - 1];
      }
    }
  }

  /** The hourly breakdown of `day`: one row per positive hour, in ascending
      hour order, each with its hour's label and total. */
  function HourlySales(orders: seq<Order>, day: int): (rows: seq<HourlyRow>)
    ensures |rows| == |PositiveHours(orders, day, 0)| <= 24
    ensures forall k :: 0 <= k < |rows| ==>
      var g := PositiveHours(orders, day, 0)[k];
      HourSum(orders, day, g) > 0.0 && rows[k] == HourlyRow(HourLabel(g), HourSum(orders, day, g))
  {
    HourlyFrom(orders, day, 0)
  }

  /** Every hour with positive sales has its row. */
  lemma HourlyComplete(orders: seq<Order>, day: int, g: nat)
    requires g < 24 && HourSum(orders, day, g) > 0.0
    ensures HourlyRow(HourLabel(g), HourSum(orders, day, g)) in HourlySales(orders, day)
  {
    var hs := PositiveHours(orders, day, 0);
    var ts := HourTotals(orders, day);
    assert ts[g] == HourSum(orders, day, g);
    Seqs.KeptComplete(ts, Positive(), 0, g);
    assert hs == Seqs.Kept(ts, Positive(), 0);
    var k :| 0 <= k < |hs| && hs[k] == g;
    assert HourlySales(orders, day)[k] == HourlyRow(HourLabel(g), HourSum(orders, day, g));
  }

  /** The rows of the hourly breakdown are in strictly ascending hour order,
      so no hour is listed twice. */
  lemma HourlyAscending(orders: seq<Order>, day: int, k: nat, l: nat)
    requires k < l < |HourlySales(orders, day)|
    ensures PositiveHours(orders, day, 0)[k] < PositiveHours(orders, day, 0)[l]
    ensures HourlySales(orders, day)[k].hour != HourlySales(orders, day)[l].hour
  {
    var hs := PositiveHours(orders, day, 0);
    var rows := HourlySales(orders, day);
    assert hs == Seqs.Kept(HourTotals(orders, day), Positive(), 0);
    Seqs.KeptIncreasing(HourTotals(orders, day), Positive(), 0);
    Seqs.AscendingBetween(hs, k, l);
    assert rows[k].hour == HourLabel(hs[k]) && rows[l].hour == HourLabel(hs[l]);
    if HourLabel(hs[k]) == HourLabel(hs[l]) {
      HourLabelInjective(hs[k], hs[l]);
    }
  }

  /** Every hour from `h` on, summed. */
  function HoursFrom(orders: seq<Order>, day: int, h: nat): real
    requires h <= 24
    decreases 24 - h
  {
    if h == 24 then 0.0 else HourSum(orders, day, h) + HoursFrom(orders, day, h + 1)
  }

  function RowsTotal(rows: seq<HourlyRow>): real {
    if |rows| == 0 then 0.0 else rows[0].total + RowsTotal(rows[1..])
  }

  /** With non-negative totals the skipped hours are exactly the zero hours,
      so the emitted rows add up to all hours. */
  lemma {:induction false} RowsCoverHours(orders: seq<Order>, day: int, h: nat)
    requires h <= 24 && TotalsNonNegative(orders)
    ensures RowsTotal(HourlyFrom(orders, day, h)) == HoursFrom(orders, day, h)
    decreases 24 - h
  {
    if h < 24 {
      RowsCoverHours(orders, day, h + 1);
      var total := HourSum(orders, day, h);
      var rest := HourlyFrom(orders, day, h + 1);
      if total > 0.0 {
        assert ([HourlyRow(HourLabel(h), total)] + rest)[1..] == rest;
      }
    }
  }

  /** Adding one order in front adds its total to exactly the hour it falls in. */
  lemma {:induction false} HoursFromCons(orders: seq<Order>, day: int, h: nat)
    requires |orders| > 0 && h <= 24 && 0 <= orders[0].second < SecondsPerDay
    ensures HoursFrom(orders, day, h) ==
      HoursFrom(orders[1..], day, h) + (if orders[0].day == day && h * SecondsPerHour <= orders[0].second then orders[0].total else 0.0)
    decreases 24 - h
  {
    if h < 24 {
      HoursFromCons(orders, day, h + 1);
    }
  }

  /** The 24 hours of a day together hold every order of that day. */
  lemma {:induction false} HoursCoverDay(orders: seq<Order>, day: int)
    requires WellTimed(orders)
    ensures HoursFrom(orders, day, 0) == DaySum(orders, day)
  {
    if |orders| > 0 {
      assert WellTimed(orders[1..]) by {
        forall i | 0 <= i < |orders[1..]| ensures 0 <= orders[1..][i].second < SecondsPerDay {
          assert orders[1..][i] == orders[i + 1];
        }
      }
      HoursCoverDay(orders[1..], day);
      assert 0 <= orders[0].second < SecondsPerDay;
      HoursFromCons(orders, day, 0);
    } else {
      NoOrdersNoHours(orders, day, 0);
    }
  }

  lemma {:induction false} NoOrdersNoHours(orders: seq<Order>, day: int, h: nat)
    requires |orders| == 0 && h <= 24
    ensures HoursFrom(orders, day, h) == 0.0
    decreases 24 - h
  {
    if h < 24 {
      NoOrdersNoHours(orders, day, h + 1);
    }
  }

  /** With non-negative order totals the hourly rows add up to the day's subtotal. */
  lemma HourlyRowsSumToSubtotal(orders: seq<Order>, day: int)
    requires WellTimed(orders) && TotalsNonNegative(orders)
    ensures RowsTotal(HourlySales(orders, day)) == DayTotals(orders, day).subtotal
  {
    RowsCoverHours(orders, day, 0);
    HoursCoverDay(orders, day);
  }

  /** An employee row of the employee table. */
  datatype Employee = Employee(id: string, name: string)

  /** One row of the per-employee breakdown. */
  datatype EmployeeRow = EmployeeRow(name: string, orders: nat, sales: real)

  /** `COUNT(order.id)` of one employee's orders on `day`. */
  function EmployeeCount(orders: seq<Order>, day: int, id: string): (n: nat)
    ensures n <= DayCount(orders, day)
  {
    if |orders| == 0 then 0
    else (if orders[0].day == day && orders[0].employeeId == id then 1 else 0) + EmployeeCount(orders[1..], day, id)
  }

  /** `SUM(order.total)` of one employee's orders on `day`. */
  function EmployeeSum(orders: seq<Order>, day: int, id: string): (s: real)
    ensures TotalsNonNegative(orders) ==> 0.0 <= s <= DaySum(orders, day)
  {
    if |orders| == 0 then 0.0
    else (if orders[0].day == day && orders[0].employeeId == id then orders[0].total else 0.0) + EmployeeSum(orders[1..], day, id)
  }

  /** The inner join grouped by employee: one row per employee with at least
      one order that day, in the order of the employee table. */
  function EmployeePerformance(employees: seq<Employee>, orders: seq<Order>, day: int): (rows: seq<EmployeeRow>)
    ensures |rows| <= |employees|
    ensures forall i :: 0 <= i < |rows| ==> rows[i].orders > 0
    ensures forall i :: 0 <= i < |rows| ==> exists e :: e in employees && rows[i] == EmployeeRow(e.name, EmployeeCount(orders, day, e.id), EmployeeSum(orders, day, e.id))
  {
    if |employees| == 0 then []
    else
      var e := employees[0];
      var n := EmployeeCount(orders, day, e.id);
      var rest := EmployeePerformance(employees[1..], orders, day);
      if n > 0 then
        assert forall i :: 0 <= i < |rest| ==> ([EmployeeRow(e.name, n, EmployeeSum(orders, day, e.id))] + rest)[i + 1] == rest[i];
        [EmployeeRow(e.name, n, EmployeeSum(orders, day, e.id))] + rest
      else rest
  }

  function EmployeeIds(employees: seq<Employee>): seq<string> {
    if |employees| == 0 then [] else [employees[0].id] + EmployeeIds(employees[1..])
  }

  function RowsOrders(rows: seq<EmployeeRow>): nat {
    if |rows| == 0 then 0 else rows[0].orders + RowsOrders(rows[1..])
  }

  function RowsSales(rows: seq<EmployeeRow>): real {
    if |rows| == 0 then 0.0 else rows[0].sales + RowsSales(rows[1..])
  }

  /** How many employees of the table carry id `id` (1 under a primary key). */
  function Matches(employees: seq<Employee>, id: string): nat {
    if |employees| == 0 then 0 else (if employees[0].id == id then 1 else 0) + Matches(employees[1..], id)
  }

  /** Every employee row sums over all of the employees' counts and sales. */
  lemma {:induction false} RowsAreAllEmployees(employees: seq<Employee>, orders: seq<Order>, day: int)
    ensures RowsOrders(EmployeePerformance(employees, orders, day)) == AllCounts(employees, orders, day)
    ensures RowsSales(EmployeePerformance(employees, orders, day)) == AllSums(employees, orders, day)
  {
    if |employees| > 0 {
      RowsAreAllEmployees(employees[1..], orders, day);
      var e := employees[0];
      var n := EmployeeCount(orders, day, e.id);
      var rest := EmployeePerformance(employees[1..], orders, day);
      if n > 0 {
        assert ([EmployeeRow(e.name, n, EmployeeSum(orders, day, e.id))] + rest)[1..] == rest;
      } else {
        NoCountNoSum(orders, day, e.id);
      }
    }
  }

  lemma {:induction false} NoCountNoSum(orders: seq<Order>, day: int, id: string)
    requires EmployeeCount(orders, day, id) == 0
    ensures EmployeeSum(orders, day, id) == 0.0
  {
    if |orders| > 0 {
      NoCountNoSum(orders[1..], day, id);
    }
  }

  function AllCounts(employees: seq<Employee>, orders: seq<Order>, day: int): nat {
    if |employees| == 0 then 0 else EmployeeCount(orders, day, employees[0].id) + AllCounts(employees[1..], orders, day)
  }

  function AllSums(employees: seq<Employee>, orders: seq<Order>, day: int): real {
    if |employees| == 0 then 0.0 else EmployeeSum(orders, day, employees[0].id) + AllSums(employees[1..], orders, day)
  }

  /** Taking one order off the front removes it from exactly the employees whose id it carries. */
  lemma {:induction false} AllCons(employees: seq<Employee>, orders: seq<Order>, day: int)
    requires |orders| > 0
    ensures AllCounts(employees, orders, day) ==
      AllCounts(employees, orders[1..], day) + (if orders[0].day == day then Matches(employees, orders[0].employeeId) else 0)
    ensures AllSums(employees, orders, day) ==
      AllSums(employees, orders[1..], day) + (if orders[0].day == day then MatchSum(employees, orders[0].employeeId, orders[0].total) else 0.0)
  {
    if |employees| > 0 {
      AllCons(employees[1..], orders, day);
    }
  }

  /** `t` once for every employee carrying id `id`. */
  function MatchSum(employees: seq<Employee>, id: string, t: real): real {
    if |employees| == 0 then 0.0 else (if employees[0].id == id then t else 0.0) + MatchSum(employees[1..], id, t)
  }

  /** Under a primary key, an id listed in the table matches exactly one employee. */
  lemma {:induction false} UniqueMatch(employees: seq<Employee>, id: string)
    requires forall i, j :: 0 <= i < j < |employees| ==> employees[i].id != employees[j].id
    requires exists i :: 0 <= i < |employees| && employees[i].id == id
    ensures Matches(employees, id) == 1
    ensures forall t :: MatchSum(employees, id, t) == t
  {
    var tail := employees[1..];
    if employees[0].id == id {
      NoMatch(tail, id);
    } else {
      var i :| 0 <= i < |employees| && employees[i].id == id;
      assert tail[i - 1].id == id;
      UniqueMatch(tail, id);
    }
  }

  lemma {:induction false} NoMatch(employees: seq<Employee>, id: string)
    requires forall i :: 0 <= i < |employees| ==> employees[i].id != id
    ensures Matches(employees, id) == 0
    ensures forall t :: MatchSum(employees, id, t) == 0.0
  {
    if |employees| > 0 {
      NoMatch(employees[1..], id);
    }
  }

  /** Every order was taken by an employee of the table (the foreign key). */
  predicate EmployeesCover(employees: seq<Employee>, orders: seq<Order>) {
    forall k :: 0 <= k < |orders| ==> exists i :: 0 <= i < |employees| && employees[i].id == orders[k].employeeId
  }

  /** Because every order has exactly one employee, the per-employee order
      counts add up to the day's order count and their sales to its subtotal. */
  lemma {:induction false} EmployeeRowsAddUp(employees: seq<Employee>, orders: seq<Order>, day: int)
    requires forall i, j :: 0 <= i < j < |employees| ==> employees[i].id != employees[j].id
    requires EmployeesCover(employees, orders)
    ensures RowsOrders(EmployeePerformance(employees, orders, day)) == DayTotals(orders, day).totalOrders
    ensures RowsSales(EmployeePerformance(employees, orders, day)) == DayTotals(orders, day).subtotal
  {
    RowsAreAllEmployees(employees, orders, day);
    AllAddUp(employees, orders, day);
  }

  lemma {:induction false} AllAddUp(employees: seq<Employee>, orders: seq<Order>, day: int)
    requires forall i, j :: 0 <= i < j < |employees| ==> employees[i].id != employees[j].id
    requires EmployeesCover(employees, orders)
    ensures AllCounts(employees, orders, day) == DayCount(orders, day)
    ensures AllSums(employees, orders, day) == DaySum(orders, day)
  {
    if |orders| == 0 {
      NoOrders(employees, orders, day);
    } else {
      assert EmployeesCover(employees, orders[1..]) by {
        forall k | 0 <= k < |orders[1..]|
          ensures exists i :: 0 <= i < |employees| && employees[i].id == orders[1..][k].employeeId
        {
          assert orders[1..][k] == orders[k + 1];
        }
      }
      AllAddUp(employees, orders[1..], day);
      AllCons(employees, orders, day);
      UniqueMatch(employees, orders[0].employeeId);
    }
  }

  lemma {:induction false} NoOrders(employees: seq<Employee>, orders: seq<Order>, day: int)
    requires |orders| == 0
    ensures AllCounts(employees, orders, day) == 0 && AllSums(employees, orders, day) == 0.0
  {
    if |employees| > 0 {
      NoOrders(employees[1..], orders, day);
    }
  }
}
