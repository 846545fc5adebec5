/** The sales-history screen: which sales a user may see, the date, payment
    and salesperson filters, the summary figures and the CSV export.

    Time is milliseconds since the epoch (UTC). The browser's time zone is a
    fixed offset `offset` (local = UTC + offset); a local calendar day is
    numbered by `LocalDayOf`. The current time and the bounds of the current
    month come from the clock and the calendar and are inputs. */
module SalesReport {
  import opened Options
  import opened Seqs
  import opened Text
  import opened Money
  import opened Records
  import opened Ledger
  import Checkout

  // ---------------------------------------------------------------------
  // Calendar

  const DayMs: int := 86400000

  /** The local calendar day an instant falls on. */
  function LocalDayOf(t: int, offset: int): int {
    (t + offset) / DayMs
  }

  /** The instant local midnight starts `day`. */
  function LocalMidnight(day: int, offset: int): int {
    day * DayMs - offset
  }

  /** The last millisecond of local day `day` (`setHours(23, 59, 59, 999)`). */
  function LocalEndOfDay(day: int, offset: int): int {
    LocalMidnight(day, offset) + DayMs - 1
  }

  /** An instant lies between the start of local day `first` and the end of
      local day `last` exactly when its local day is in that range. */
  lemma LocalDaysWindow(t: int, first: int, last: int, offset: int)
    ensures LocalMidnight(first, offset) <= t <= LocalEndOfDay(last, offset)
            <==> first <= LocalDayOf(t, offset) <= last
  {
    var d := LocalDayOf(t, offset);
    var m := (t + offset) % DayMs;
    assert t + offset == d * DayMs + m && 0 <= m < DayMs;
    if first <= d {
      assert first * DayMs <= d * DayMs;
    } else {
      assert (d + 1) * DayMs <= first * DayMs;
    }
    if d <= last {
      assert d * DayMs <= last * DayMs;
    } else {
      assert (last + 1) * DayMs <= d * DayMs;
    }
  }

  /** How an instant compares with a local midnight: at or after it exactly
      when its day is that day or later; at or before it exactly when its
      day is earlier or it is that very instant. */
  lemma MidnightOrder(t: int, d: int, offset: int)
    ensures LocalMidnight(d, offset) <= t <==> d <= LocalDayOf(t, offset)
    ensures t <= LocalMidnight(d, offset) <==> LocalDayOf(t, offset) < d || t == LocalMidnight(d, offset)
  {
    var day := LocalDayOf(t, offset);
    var m := (t + offset) % DayMs;
    assert t + offset == day * DayMs + m && 0 <= m < DayMs;
    if d <= day {
      assert d * DayMs <= day * DayMs;
    } else {
      assert (day + 1) * DayMs <= d * DayMs;
    }
  }

  // ---------------------------------------------------------------------
  // Date windows

  /** Both bounds inclusive. */
  datatype Window = Window(start: int, end: int) {
    predicate Holds(t: int) { start <= t <= end }
  }

  /** What the clock and the local calendar tell the page: the current
      instant, the time-zone offset and the local days that begin and end
      the current month. */
  datatype Clock = Clock(now: int, offset: int, monthFirstDay: int, monthLastDay: int)

  datatype DateRange =
    | AllDates
    | Today
    | LastWeek
    | ThisMonth
    | Custom(startDay: Option<int>, endDay: Option<int>)

  /** From local midnight of day `first` to the end of day `last`. */
  function DaysWindow(first: int, last: int, offset: int): (w: Window)
    ensures forall t :: w.Holds(t) <==> first <= LocalDayOf(t, offset) <= last
  {
    AllLocalDaysWindow(first, last, offset);
    Window(LocalMidnight(first, offset), LocalEndOfDay(last, offset))
  }

  lemma AllLocalDaysWindow(first: int, last: int, offset: int)
    ensures forall t :: Window(LocalMidnight(first, offset), LocalEndOfDay(last, offset)).Holds(t)
                        <==> first <= LocalDayOf(t, offset) <= last
  {
    forall t ensures Window(LocalMidnight(first, offset), LocalEndOfDay(last, offset)).Holds(t)
                     <==> first <= LocalDayOf(t, offset) <= last {
      LocalDaysWindow(t, first, last, offset);
    }
  }

  /** "today": from local midnight to the last millisecond of the day. */
  function TodayWindow(c: Clock): (w: Window)
    ensures forall t :: w.Holds(t) <==> LocalDayOf(t, c.offset) == LocalDayOf(c.now, c.offset)
  {
    DaysWindow(LocalDayOf(c.now, c.offset), LocalDayOf(c.now, c.offset), c.offset)
  }

  /** "week": the seven days up to now (`setDate(getDate() - 7)` keeps the
      time of day). */
  function WeekWindow(c: Clock): (w: Window)
    ensures forall t :: w.Holds(t) <==> 0 <= c.now - t <= 7 * DayMs
  {
    Window(c.now - 7 * DayMs, c.now)
  }

  /** "month" as the page computes it: `new Date(year, month + 1, 0)` is
      local midnight at the START of the month's last day. */
  function MonthWindowAsWritten(c: Clock): (w: Window)
    ensures forall t :: w.Holds(t) <==>
              && c.monthFirstDay <= LocalDayOf(t, c.offset)
              && (LocalDayOf(t, c.offset) < c.monthLastDay || t == LocalMidnight(c.monthLastDay, c.offset))
  {
    forall t ensures LocalMidnight(c.monthFirstDay, c.offset) <= t <==> c.monthFirstDay <= LocalDayOf(t, c.offset)
             ensures t <= LocalMidnight(c.monthLastDay, c.offset)
                     <==> LocalDayOf(t, c.offset) < c.monthLastDay || t == LocalMidnight(c.monthLastDay, c.offset) {
      MidnightOrder(t, c.monthFirstDay, c.offset);
      MidnightOrder(t, c.monthLastDay, c.offset);
    }
    Window(LocalMidnight(c.monthFirstDay, c.offset), LocalMidnight(c.monthLastDay, c.offset))
  }

  /** A sale at noon on the last day of the month falls outside the window
      the page computes. */
  lemma MonthMissesLastDay(c: Clock)
    requires c.monthFirstDay < c.monthLastDay
    ensures var noon := LocalMidnight(c.monthLastDay, c.offset) + DayMs / 2;
            && LocalDayOf(noon, c.offset) == c.monthLastDay
            && !MonthWindowAsWritten(c).Holds(noon)
  {
    var noon := LocalMidnight(c.monthLastDay, c.offset) + DayMs / 2;
    LocalDaysWindow(noon, c.monthLastDay, c.monthLastDay, c.offset);
  }

  /** "month", ending at the last millisecond of the month's last day. */
  function MonthWindow(c: Clock): (w: Window)
    ensures forall t :: w.Holds(t) <==>
              c.monthFirstDay <= LocalDayOf(t, c.offset) <= c.monthLastDay
  {
    DaysWindow(c.monthFirstDay, c.monthLastDay, c.offset)
  }

  /** "custom" as the page computes it: a `YYYY-MM-DD` input parses as UTC
      midnight of that day, and `setHours(23, 59, 59, 999)` then moves to
      the end of whichever LOCAL day that instant falls on. */
  function CustomWindowAsWritten(startDay: int, endDay: int, offset: int): (w: Window)
    ensures forall t :: w.Holds(t) <==>
              && startDay <= LocalDayOf(t, 0)
              && LocalDayOf(t, offset) <= LocalDayOf(endDay * DayMs, offset)
  {
    var last := LocalDayOf(endDay * DayMs, offset);
    forall t ensures startDay * DayMs <= t <==> startDay <= LocalDayOf(t, 0)
             ensures t <= LocalEndOfDay(last, offset) <==> LocalDayOf(t, offset) <= last {
      MidnightOrder(t, startDay, 0);
      MidnightOrder(t, last + 1, offset);
    }
    Window(startDay * DayMs, LocalEndOfDay(last, offset))
  }

  /** West of UTC (offset five hours behind), a sale at local noon on the
      chosen end day is left out of the custom range the page computes. */
  lemma CustomRangeMissesEndDay(startDay: int, endDay: int)
    requires startDay <= endDay
    ensures var offset := -5 * 3600000;
            var noon := LocalMidnight(endDay, offset) + DayMs / 2;
            && LocalDayOf(noon, offset) == endDay
            && !CustomWindowAsWritten(startDay, endDay, offset).Holds(noon)
  {
    var offset := -5 * 3600000;
    var noon := LocalMidnight(endDay, offset) + DayMs / 2;
    LocalDaysWindow(noon, endDay, endDay, offset);
    assert LocalDayOf(endDay * DayMs, offset) == endDay - 1 by {
      LocalDaysWindow(endDay * DayMs, endDay - 1, endDay - 1, offset);
    }
    LocalDaysWindow(noon, endDay - 1, endDay - 1, offset);
  }

  /** East of UTC (offset two hours ahead), a sale at 01:00 local time on
      the chosen start day is left out of the custom range the page
      computes, because the range starts at UTC midnight. */
  lemma CustomRangeMissesStartDay(startDay: int, endDay: int)
    requires startDay <= endDay
    ensures var offset := 2 * 3600000;
            var early := LocalMidnight(startDay, offset) + 3600000;
            && LocalDayOf(early, offset) == startDay
            && !CustomWindowAsWritten(startDay, endDay, offset).Holds(early)
  {
    var offset := 2 * 3600000;
    var early := LocalMidnight(startDay, offset) + 3600000;
    LocalDaysWindow(early, startDay, startDay, offset);
    LocalDaysWindow(early, startDay - 1, startDay - 1, 0);
  }

  /** "custom", from the start of the local start day to the end of the
      local end day. */
  function CustomWindow(startDay: int, endDay: int, offset: int): (w: Window)
    ensures forall t :: w.Holds(t) <==> startDay <= LocalDayOf(t, offset) <= endDay
  {
    DaysWindow(startDay, endDay, offset)
  }

  /** The window a date-range choice filters by, `None` for no date
      filter: "all", or "custom" with either date left empty. */
  function RangeWindow(range: DateRange, c: Clock): (w: Option<Window>)
    ensures w.None? <==> range.AllDates? || (range.Custom? && (range.startDay.None? || range.endDay.None?))
  {
    match range
    case AllDates => None
    case Today => Some(TodayWindow(c))
    case LastWeek => Some(WeekWindow(c))
    case ThisMonth => Some(MonthWindowAsWritten(c))
    case Custom(s, e) =>
      if s.Some? && e.Some? then Some(CustomWindowAsWritten(s.value, e.value, c.offset)) else None
  }

  /** The windows the page evidently means: "month" and "custom" cover
      whole local days, as `MonthWindow` and `CustomWindow` do. */
  function RangeWindowIntended(range: DateRange, c: Clock): (w: Option<Window>)
    ensures w.None? <==> range.AllDates? || (range.Custom? && (range.startDay.None? || range.endDay.None?))
    ensures range.ThisMonth? ==>
              forall t :: w.value.Holds(t) <==> c.monthFirstDay <= LocalDayOf(t, c.offset) <= c.monthLastDay
    ensures range.Custom? && w.Some? ==>
              forall t :: w.value.Holds(t) <==>
                range.startDay.value <= LocalDayOf(t, c.offset) <= range.endDay.value
  {
    match range
    case AllDates => None
    case Today => Some(TodayWindow(c))
    case LastWeek => Some(WeekWindow(c))
    case ThisMonth => Some(MonthWindow(c))
    case Custom(s, e) =>
      if s.Some? && e.Some? then Some(CustomWindow(s.value, e.value, c.offset)) else None
  }

  /** Where the page's windows and the intended ones part: "all", "today"
      and "week" agree outright; "month" loses every instant of its last
      day after midnight and nothing else; "custom" agrees in UTC. */
  lemma RangeWindowsAgree(range: DateRange, c: Clock)
    ensures !range.ThisMonth? && !range.Custom? ==> RangeWindow(range, c) == RangeWindowIntended(range, c)
    ensures range.ThisMonth? ==>
              forall t :: RangeWindow(range, c).value.Holds(t) <==>
                && RangeWindowIntended(range, c).value.Holds(t)
                && (LocalDayOf(t, c.offset) < c.monthLastDay || t == LocalMidnight(c.monthLastDay, c.offset))
    ensures range.Custom? && c.offset == 0 ==> RangeWindow(range, c) == RangeWindowIntended(range, c)
  {
    if range.Custom? && c.offset == 0 && range.startDay.Some? && range.endDay.Some? {
      assert LocalDayOf(range.endDay.value * DayMs, 0) == range.endDay.value;
    }
  }

  // ---------------------------------------------------------------------
  // Loading and filtering

  predicate NotLater(a: Sale, b: Sale) { a.timestamp <= b.timestamp }

  predicate NotEarlier(a: Sale, b: Sale) { a.timestamp >= b.timestamp }

  /** Sales in the order they happened. */
  predicate Chronological(sales: seq<Sale>) {
    Ordered(sales, NotLater)
  }

  /** Most recent first. */
  predicate NewestFirst(sales: seq<Sale>) {
    Ordered(sales, NotEarlier)
  }

  predicate Visible(viewer: User, s: Sale) {
    viewer.role == OwnerRole || s.userId == viewer.id
  }

  /** The sales a viewer may see, in stored order: everything for the
      owner, the store's per-user query for anyone else. */
  function VisibleSales(all: seq<Sale>, viewer: User): (v: seq<Sale>)
    ensures forall s :: s in v <==> s in all && Visible(viewer, s)
    ensures Chronological(all) ==> Chronological(v)
  {
    var v := if viewer.role == OwnerRole then all else GetSalesByUserId(all, viewer.id);
    assert Chronological(all) ==> Chronological(v) by {
      if Chronological(all) && viewer.role != OwnerRole {
        SublistOrdered(v, all, NotLater);
      }
    }
    v
  }

  /** `loadSalesData`: the owner sees every sale, anyone else only their
      own; the list is shown most recent first. */
  function LoadSales(table: Option<seq<Sale>>, viewer: User): (r: seq<Sale>)
    ensures forall s :: s in r <==> s in GetSales(table) && Visible(viewer, s)
    ensures var v := if viewer.role == OwnerRole then GetSales(table)
                     else GetSalesByUserId(GetSales(table), viewer.id);
            |r| == |v| && forall i :: 0 <= i < |r| ==> r[i] == v[|v| - 1 - i]
    ensures Chronological(GetSales(table)) ==> NewestFirst(r)
  {
    var all := GetSales(table);
    var v := VisibleSales(all, viewer);
    assert v == if viewer.role == OwnerRole then all else GetSalesByUserId(all, viewer.id);
    ReverseNewestFirst(v);
    Reverse(v)
  }

  lemma ReverseNewestFirst(sales: seq<Sale>)
    ensures Chronological(sales) ==> NewestFirst(Reverse(sales))
  {
    var r := Reverse(sales);
    if Chronological(sales) {
      forall i, j | 0 <= i < j < |r| ensures NotEarlier(r[i], r[j]) {
        assert r[i] == sales[|sales| - 1 - i] && r[j] == sales[|sales| - 1 - j];
        assert NotLater(sales[|sales| - 1 - j], sales[|sales| - 1 - i]);
      }
    }
  }

  /** Recording a sale stamped no earlier than every stored one keeps the
      table in the order the sales happened. */
  lemma CreateSaleKeepsChronological(sales: seq<Sale>, s: Sale, newId: Id)
    requires newId != ""
    requires Chronological(sales)
    requires forall i :: 0 <= i < |sales| ==> sales[i].timestamp <= s.timestamp
    ensures Chronological(CreateSale(sales, s, newId).table)
  {
    var r := CreateSale(sales, s, newId).table;
    forall i, j | 0 <= i < j < |r| ensures NotLater(r[i], r[j]) {
      if j < |sales| {
        assert r[i] == sales[i] && r[j] == sales[j];
        assert NotLater(sales[i], sales[j]);
      } else {
        assert r[i] == sales[i];
      }
    }
  }

  /** The filter bar: `None` stands for "all". */
  datatype SalesFilters = SalesFilters(range: DateRange, payment: Option<Payment>, userId: Option<Id>)

  const NoFilters := SalesFilters(AllDates, None, None)

  /** The three filters of `applyFilters`; the salesperson filter applies
      only when the viewer is the owner. */
  predicate PassesFilters(f: SalesFilters, c: Clock, viewer: User, s: Sale) {
    var w := RangeWindow(f.range, c);
    && (w.None? || w.value.Holds(s.timestamp))
    && (f.payment.None? || s.paymentMethod == f.payment.value)
    && (viewer.role != OwnerRole || f.userId.None? || s.userId == f.userId.value)
  }

  function FiltersKeep(f: SalesFilters, c: Clock, viewer: User): Sale -> bool {
    (s: Sale) => PassesFilters(f, c, viewer, s)
  }

  /** `applyFilters`: the shown sales that pass every chosen filter, in the
      order they were shown. */
  function ApplyFilters(sales: seq<Sale>, f: SalesFilters, c: Clock, viewer: User): (r: seq<Sale>)
    ensures forall s :: s in r <==> s in sales && PassesFilters(f, c, viewer, s)
    ensures forall s :: multiset(r)[s] == if PassesFilters(f, c, viewer, s) then multiset(sales)[s] else 0
    ensures IsSublist(r, sales)
    ensures NewestFirst(sales) ==> NewestFirst(r)
  {
    FilterCount(sales, FiltersKeep(f, c, viewer));
    var r := Filter(sales, FiltersKeep(f, c, viewer));
    assert NewestFirst(sales) ==> NewestFirst(r) by {
      if NewestFirst(sales) {
        SublistOrdered(r, sales, NotEarlier);
      }
    }
    r
  }

  /** With every filter on "all" the list is shown unchanged. */
  lemma NoFiltersShowsAll(sales: seq<Sale>, c: Clock, viewer: User)
    ensures ApplyFilters(sales, NoFilters, c, viewer) == sales
  {
    FilterKeepsAll(sales, FiltersKeep(NoFilters, c, viewer));
  }

  /** With only a date range chosen, the page's filter is the store's
      date-range query over the window the range gives. */
  lemma DateFilterIsRangeQuery(sales: seq<Sale>, range: DateRange, c: Clock, viewer: User)
    requires RangeWindow(range, c).Some?
    ensures var w := RangeWindow(range, c).value;
            ApplyFilters(sales, SalesFilters(range, None, None), c, viewer)
            == GetSalesByDateRange(sales, w.start, w.end)
  {
    var w := RangeWindow(range, c).value;
    FilterCongruent(sales, FiltersKeep(SalesFilters(range, None, None), c, viewer),
                           (s: Sale) => w.start <= s.timestamp && s.timestamp <= w.end);
  }

  /** A salesperson's choice in the salesperson filter has no effect. */
  lemma SalespersonFilterOwnerOnly(sales: seq<Sale>, f: SalesFilters, c: Clock, viewer: User)
    requires viewer.role != OwnerRole
    ensures ApplyFilters(sales, f, c, viewer) == ApplyFilters(sales, f.(userId := None), c, viewer)
  {
    FilterCongruent(sales, FiltersKeep(f, c, viewer),
                           FiltersKeep(f.(userId := None), c, viewer));
  }

  // ---------------------------------------------------------------------
  // Summary figures

  /** "Total revenue" over the filtered sales. */
  function TotalRevenue(sales: seq<Sale>): real {
    SumOf(sales, SaleTotal)
  }

  /** With non-negative totals, the filtered revenue lies between zero and
      the revenue of everything shown. */
  lemma FilteredRevenueAtMost(sales: seq<Sale>, f: SalesFilters, c: Clock, viewer: User)
    requires forall i :: 0 <= i < |sales| ==> sales[i].total >= 0.0
    ensures 0.0 <= TotalRevenue(ApplyFilters(sales, f, c, viewer)) <= TotalRevenue(sales)
  {
    SumOfFilterAtMost(sales, FiltersKeep(f, c, viewer), SaleTotal);
  }

  function ItemQuantity(i: SaleItem): int { i.quantity }

  function LineQuantity(l: Checkout.CartLine): int { l.quantity }

  /** The "items" column: units sold, summed over the lines. */
  function ItemCount(s: Sale): (n: int)
    ensures n >= 0
  {
    SumIntNonNegative(s.items);
    SumInt(s.items, ItemQuantity)
  }

  lemma {:induction false} SumIntNonNegative(items: seq<SaleItem>)
    ensures SumInt(items, ItemQuantity) >= 0
    decreases |items|
  {
    if |items| > 0 {
      SumIntNonNegative(items[1..]);
    }
  }

  /** A sale recorded at checkout counts exactly the units in the cart. */
  lemma ItemCountOfCheckout(cart: seq<Checkout.CartLine>, payment: Payment, selected: Option<Customer>,
                            user: User, saleId: Id, now: int)
    ensures ItemCount(Checkout.BuildSale(cart, payment, selected, user, saleId, now))
            == SumInt(cart, LineQuantity)
  {
    var s := Checkout.BuildSale(cart, payment, selected, user, saleId, now);
    SumIntPointwise(s.items, ItemQuantity, cart, LineQuantity);
  }

  // ---------------------------------------------------------------------
  // CSV export

  const UnknownSalesperson: string := "Unknown"

  /** `getSalespersonName`: the first user with that id, by full name or
      else user name; "Unknown" when there is none. */
  function SalespersonName(users: seq<User>, userId: Id): (n: string)
    ensures (forall i :: 0 <= i < |users| ==> users[i].id != userId) ==> n == UnknownSalesperson
    ensures forall i :: 0 <= i < |users| && users[i].id == userId
                        && (forall j :: 0 <= j < i ==> users[j].id != userId) ==>
              n == (if users[i].fullName.Some? && users[i].fullName.value != ""
                    then users[i].fullName.value else users[i].username)
  {
    var found := FindFirst(users, (u: User) => u.id == userId);
    if found.None? then UnknownSalesperson
    else
      var u := found.value;
      if u.fullName.Some? && u.fullName.value != "" then u.fullName.value else u.username
  }

  function PaymentLabel(p: Payment): string {
    match p
    case Cash => "CASH"
    case Credit => "CREDIT"
  }

  const CsvHeader: seq<string> :=
    ["Date", "Transaction ID", "Salesperson", "Payment Method", "Subtotal", "Tax", "Total"]

  /** One line of the export. `day` is the local calendar day the sale
      happened on (its `toLocaleDateString` rendering is not modelled); the
      amounts are the ones `toFixed(2)` prints. */
  datatype CsvLine =
    | Header(columns: seq<string>)
    | Row(day: int, transactionId: string, salesperson: string, paymentMethod: string,
          subtotal: real, tax: real, total: real)

  function CsvRow(s: Sale, names: seq<User>, offset: int): CsvLine {
    Row(LocalDayOf(s.timestamp, offset), LastChars(s.id, 8), SalespersonName(names, s.userId),
        PaymentLabel(s.paymentMethod), Round2(s.subtotal), Round2(s.tax), Round2(s.total))
  }

  /** What one exported row says about its sale: the local day, the last
      eight characters of the id, the salesperson's name when the viewer is
      the owner and "Unknown" otherwise, the payment label and the amounts
      rounded to cents. */
  predicate RowDescribes(line: CsvLine, s: Sale, users: seq<User>, viewer: User, offset: int) {
    && line.Row?
    && LocalDayOf(s.timestamp, offset) == line.day
    && |line.transactionId| == (if |s.id| < 8 then |s.id| else 8)
    && line.transactionId == s.id[|s.id| - |line.transactionId|..]
    && IsCents(line.subtotal) && IsCents(line.tax) && IsCents(line.total)
    && (viewer.role != OwnerRole ==> line.salesperson == UnknownSalesperson)
    && (viewer.role == OwnerRole ==> line.salesperson == SalespersonName(users, s.userId))
    && line.paymentMethod == (if s.paymentMethod == Cash then "CASH" else "CREDIT")
    && line.subtotal == Round2(s.subtotal)
    && line.tax == Round2(s.tax)
    && line.total == Round2(s.total)
  }

  /** The row the export builds for a sale describes that sale. */
  lemma CsvRowDescribes(line: CsvLine, s: Sale, users: seq<User>, viewer: User, offset: int)
    requires line == CsvRow(s, if viewer.role == OwnerRole then users else [], offset)
    ensures RowDescribes(line, s, users, viewer, offset)
  {
  }

  /** `exportToCSV`: the header, then one row per filtered sale in order.
      The page only loads the user list for the owner, so anyone else's
      export names every salesperson "Unknown". */
  function ExportCsv(filtered: seq<Sale>, users: seq<User>, viewer: User, offset: int)
    : (r: seq<CsvLine>)
    ensures |r| == |filtered| + 1
    ensures r[0] == Header(CsvHeader)
    ensures forall i :: 0 <= i < |filtered| ==>
              RowDescribes(r[i + 1], filtered[i], users, viewer, offset)
  {
    var names := if viewer.role == OwnerRole then users else [];
    var r := seq(|filtered| + 1, i requires 0 <= i <= |filtered| =>
                   if i == 0 then Header(CsvHeader) else CsvRow(filtered[i - 1], names, offset));
    forall i | 0 <= i < |filtered| ensures RowDescribes(r[i + 1], filtered[i], users, viewer, offset) {
      CsvRowDescribes(r[i + 1], filtered[i], users, viewer, offset);
    }
    r
  }

  /** The amounts a recorded sale exports are exactly the stored ones. */
  lemma ExportedAmountsExact(s: Sale, users: seq<User>, viewer: User, offset: int)
    requires IsCents(s.subtotal) && IsCents(s.tax) && IsCents(s.total)
    ensures var row := ExportCsv([s], users, viewer, offset)[1];
            row.subtotal == s.subtotal && row.tax == s.tax && row.total == s.total
  {
    Round2OfCents(s.subtotal);
    Round2OfCents(s.tax);
    Round2OfCents(s.total);
  }
}
