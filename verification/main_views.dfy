/** The month page (`MainView`): which month and day it opens on, the three
    months it reads holidays for, the per-day list and the Sunday-first
    calendar grid, and the month data it reads through the cache. */
module MainViews {
  import opened Wrappers
  import opened Strings
  import opened Calendar
  import opened Records
  import opened Cache
  import opened Store
  import opened UtilityViews
  import DailyViews

  // ---------------------------------------------------------------------------
  // The displayed month and the default day

  /** The first day of the displayed month: the query's year and month when
      both are given, otherwise today's month. `None` where `date(year, month, 1)`
      raises. */
  function DisplayedMonth(today: CivilDate, year: Option<int>, month: Option<int>): (r: Option<CivilDate>)
    ensures year.None? || month.None? ==> r == Some(FirstOfMonth(today.year, today.month))
    ensures year.Some? && month.Some? ==>
              (r.Some? <==> ValidDate(year.value, month.value, 1))
              && (r.Some? ==> r.value == Date(year.value, month.value, 1))
  {
    if year.None? || month.None? then Some(FirstOfMonth(today.year, today.month))
    else if ValidDate(year.value, month.value, 1) then Some(Date(year.value, month.value, 1))
    else None
  }

  /** The day the page preselects: today in the current month, the last day
      of a past month, the 1st of a future one. It is computed once
      `date(year, month, 1)` has succeeded. */
  function DefaultDay(today: CivilDate, year: int, month: int): (r: int)
    requires ValidDate(year, month, 1)
    ensures ValidDate(year, month, r)
    ensures MonthIndex(year, month) == MonthIndex(today.year, today.month) ==> r == today.day
    ensures MonthIndex(year, month) < MonthIndex(today.year, today.month) ==> r == DaysInMonth(year, month)
    ensures MonthIndex(year, month) > MonthIndex(today.year, today.month) ==> r == 1
  {
    if year == today.year && month == today.month then today.day
    else if Before(Date(year, month, 1), Date(today.year, today.month, 1)) then DaysInMonth(year, month)
    else 1
  }

  // ---------------------------------------------------------------------------
  // Adjacent months

  /** `y + (m + diff - 1) // 12`, `(m + diff - 1) % 12 + 1`: Python's floor
      division and remainder by 12 agree with Dafny's here. */
  function AdjacentMonth(year: int, month: int, diff: int): (r: (int, int))
    ensures 1 <= r.1 <= 12
    ensures r == MonthAt(MonthIndex(year, month) + diff)
  {
    var k := month + diff - 1;
    ShiftByYears(year, k);
    (year + k / 12, k % 12 + 1)
  }

  lemma ShiftByYears(year: int, k: int)
    ensures (year * 12 + k) / 12 == year + k / 12
    ensures (year * 12 + k) % 12 == k % 12
  {
    var q := k / 12;
    var r := k % 12;
    assert year * 12 + k == (year + q) * 12 + r;
  }

  /** The months whose holidays the page reads: previous, current, next. */
  function HolidayMonths(year: int, month: int): (r: seq<(int, int)>)
    ensures |r| == 3
  {
    [AdjacentMonth(year, month, -1), AdjacentMonth(year, month, 0), AdjacentMonth(year, month, 1)]
  }

  /** For a real month the page reads holidays for the same three months the
      cache preloads. */
  lemma HolidayMonthsArePreloaded(year: int, month: int)
    requires 1 <= month <= 12
    ensures HolidayMonths(year, month) == PreloadMonths(year, month)
  {
  }

  /** The stored month before the displayed one, looked up as the page does
      (`str(year)`, two-digit month). */
  function PreviousMonthRow(w: World, year: int, month: int): (r: Option<MonthRow>)
    ensures var p := PrevMonth(year, month);
            r.Some? <==> NumericKey(p.0, p.1) in w.rows
  {
    var p := PrevMonth(year, month);
    var key := NumericKey(p.0, p.1);
    if key in w.rows then Some(w.rows[key]) else None
  }

  // ---------------------------------------------------------------------------
  // Reading the month

  /** `get_monthly_data_with_cache` with the page's unpadded month text, for
      a choice of time reader: on a miss the page shows the stored month. */
  function MonthForPage(w: World, year: int, month: int, rd: TimeReader): (r: Lookup)
    ensures GetWith(w.cache, w.employee, IntToString(year), IntToString(month), rd).value.None? ==>
              r.value == Load(w, IntToString(year), IntToString(month))
    ensures GetWith(w.cache, w.employee, IntToString(year), IntToString(month), rd).value.Some? ==>
              r == GetWith(w.cache, w.employee, IntToString(year), IntToString(month), rd)
  {
    var y := IntToString(year);
    var m := IntToString(month);
    ReadThrough(w.cache, w.employee, y, m, Load(w, y, m), rd)
  }

  /** After any write of a month through `Commit`, the page reads that month
      from the store, not from a stale cache entry, whichever reader it uses. */
  lemma PageSeesCommit(w: World, year: int, month: int, m: Monthly, rd: TimeReader)
    requires RowKey(IntToString(year), IntToString(month)) in w.rows
    ensures var w2 := Commit(w, IntToString(year), IntToString(month), m);
            MonthForPage(w2, year, month, rd).value == Load(w2, IntToString(year), IntToString(month))
  {
  }

  /** With times read the source's way, a stored month holding a clock time
      is read from the store on every view: the page shows the stored month,
      and the view after it misses the cache again and shows it once more. */
  lemma TimedMonthPageReadsStore(w: World, year: int, month: int, k: nat)
    requires Load(w, IntToString(year), IntToString(month)).Some?
    requires var days := Load(w, IntToString(year), IntToString(month)).value.days;
             k < |days| && (days[k].start.Some? || days[k].end.Some?)
    requires GetWith(w.cache, w.employee, IntToString(year), IntToString(month), ViaDatetime).value.None?
    ensures var r1 := MonthForPage(w, year, month, ViaDatetime);
            && r1.value == Load(w, IntToString(year), IntToString(month))
            && GetWith(r1.cache, w.employee, IntToString(year), IntToString(month), ViaDatetime).value.None?
            && MonthForPage(w.(cache := r1.cache), year, month, ViaDatetime) == r1
  {
    TimedMonthNeverStaysCached(w.cache, w.employee, IntToString(year), IntToString(month),
                               Load(w, IntToString(year), IntToString(month)).value, k);
  }

  /** `attendance_require_day` flags a stored record but leaves the month's
      cache entry in place. Starting from the entry an earlier view wrote,
      the page as written shows the flag on a day with a clock time, because
      such a month is always read from the store; with times read by
      `time.fromisoformat` it is served the cached month, where no record is
      awaiting approval. */
  lemma RequireDayOnPage(w: World, d: CivilDate, i: nat)
    requires DailyViews.RowOf(d) in w.rows
    requires FirstIndexOf(w.rows[DailyViews.RowOf(d)].days, d) == Some(i)
    requires w.rows[DailyViews.RowOf(d)].days[i].start.Some? || w.rows[DailyViews.RowOf(d)].days[i].end.Some?
    requires var y := IntToString(d.year);
             var m := IntToString(d.month);
             && Key(w.employee, y, m) in w.cache
             && w.cache[Key(w.employee, y, m)] == Entry(Document(EncodeMonth(Load(w, y, m).value)), Timeout)
    ensures DailyViews.RequireDate(w, d).reply == DailyViews.Requested
    ensures var w2 := DailyViews.RequireDate(w, d).world;
            var shown := MonthForPage(w2, d.year, d.month, ViaDatetime).value;
            && shown == Load(w2, IntToString(d.year), IntToString(d.month))
            && shown.Some? && i < |shown.value.days| && shown.value.days[i].isRequired
    ensures var w2 := DailyViews.RequireDate(w, d).world;
            var shown := MonthForPage(w2, d.year, d.month, ViaTime).value;
            && shown.Some? && i < |shown.value.days| && !shown.value.days[i].isRequired
  {
    var y := IntToString(d.year);
    var m := IntToString(d.month);
    var before := Load(w, y, m).value;
    var w2 := DailyViews.RequireDate(w, d).world;
    assert w2.cache == w.cache;
    assert w.cache == Put(w.cache, w.employee, y, m, before);
    PutThenGetAsWritten(w.cache, w.employee, y, m, before, i);
    PutThenGet(w.cache, w.employee, y, m, before);
  }

  // ---------------------------------------------------------------------------
  // Holidays

  /** Saturday, Sunday or a calendar holiday, as the comment at the test
      describes it (`weekday()` counts Monday as 0). */
  predicate IsHoliday(d: CivilDate, holidays: set<CivilDate>)
  {
    Weekday(d) == 5 || Weekday(d) == 6 || d in holidays
  }

  /** The test as written: `weekday() == 6 or weekday() == 0`, which is
      Sunday or Monday. */
  predicate IsHolidayAsWritten(d: CivilDate, holidays: set<CivilDate>)
  {
    Weekday(d) == 6 || Weekday(d) == 0 || d in holidays
  }

  /** Which weekend test a page applies: the one written at the flag
      (Sunday or Monday) or the one its comment describes (Saturday or
      Sunday). */
  datatype WeekendTest = AsWritten | Corrected

  predicate HolidayBy(test: WeekendTest, d: CivilDate, holidays: set<CivilDate>)
  {
    if test.AsWritten? then IsHolidayAsWritten(d, holidays) else IsHoliday(d, holidays)
  }

  /** Saturday 8 June 2024 is not flagged by the test as written. */
  lemma SaturdayMissedAsWritten(holidays: set<CivilDate>)
    requires Date(2024, 6, 8) !in holidays
    ensures Weekday(Date(2024, 6, 8)) == 5
    ensures !IsHolidayAsWritten(Date(2024, 6, 8), holidays)
    ensures IsHoliday(Date(2024, 6, 8), holidays)
  {
  }

  /** Monday 10 June 2024 is flagged by the test as written. */
  lemma MondayFlaggedAsWritten(holidays: set<CivilDate>)
    requires Date(2024, 6, 10) !in holidays
    ensures Weekday(Date(2024, 6, 10)) == 0
    ensures IsHolidayAsWritten(Date(2024, 6, 10), holidays)
    ensures !IsHoliday(Date(2024, 6, 10), holidays)
  {
  }

  /** In every week the corrected test flags a Saturday and the Sunday after
      it, while the test as written flags that Sunday and the Monday after. */
  lemma WeekendShiftedByOneDay(sat: CivilDate)
    requires Weekday(sat) == 5 && NextDay(sat).Some?
    requires NextDay(NextDay(sat).value).Some?
    ensures var sun := NextDay(sat).value;
            var mon := NextDay(sun).value;
            && IsHoliday(sat, {}) && IsHoliday(sun, {}) && !IsHoliday(mon, {})
            && !IsHolidayAsWritten(sat, {}) && IsHolidayAsWritten(sun, {}) && IsHolidayAsWritten(mon, {})
  {
    var sun := NextDay(sat).value;
    NextDayWeekday(sat);
    NextDayWeekday(sun);
    WeekendFlags(sat, sun, NextDay(sun).value);
  }

  /** The two tests on a Saturday, a Sunday and a Monday. */
  lemma WeekendFlags(sat: CivilDate, sun: CivilDate, mon: CivilDate)
    requires Weekday(sat) == 5
    requires Weekday(sun) == (Weekday(sat) + 1) % 7 && Weekday(mon) == (Weekday(sun) + 1) % 7
    ensures IsHoliday(sat, {}) && IsHoliday(sun, {}) && !IsHoliday(mon, {})
    ensures !IsHolidayAsWritten(sat, {}) && IsHolidayAsWritten(sun, {}) && IsHolidayAsWritten(mon, {})
  {
  }

  // ---------------------------------------------------------------------------
  // The per-day list

  datatype MonthDay = MonthDay(date: CivilDate, weekday: int, record: Option<Daily>, isHoliday: bool)

  /** `month_days_list`: one entry per day of the month, in order, each with
      the first record of that date and the holiday flag of the given test. */
  function MonthDaysList(year: int, month: int, days: seq<Daily>, holidays: set<CivilDate>,
                         test: WeekendTest): (r: seq<MonthDay>)
    requires MinYear <= year <= MaxYear && 1 <= month <= 12
    ensures |r| == DaysInMonth(year, month)
    ensures forall i :: 0 <= i < |r| ==>
              && r[i].date == Date(year, month, i + 1)
              && r[i].weekday == Weekday(r[i].date)
              && r[i].record == FindFirst(days, r[i].date)
    ensures test.AsWritten? ==> forall i :: 0 <= i < |r| ==>
              (r[i].isHoliday <==> Weekday(r[i].date) == 6 || Weekday(r[i].date) == 0 || r[i].date in holidays)
    ensures test.Corrected? ==> forall i :: 0 <= i < |r| ==>
              (r[i].isHoliday <==> Weekday(r[i].date) == 5 || Weekday(r[i].date) == 6 || r[i].date in holidays)
  {
    seq(DaysInMonth(year, month), i requires 0 <= i < DaysInMonth(year, month) =>
      var d: CivilDate := Date(year, month, i + 1);
      MonthDay(d, Weekday(d), FindFirst(days, d), HolidayBy(test, d, holidays)))
  }

  /** The two tests give the same list except for the flag, and the flag
      differs exactly on the Saturdays and Mondays that are not calendar
      holidays. */
  lemma MonthDaysListTestsDiffer(year: int, month: int, days: seq<Daily>, holidays: set<CivilDate>, k: int)
    requires MinYear <= year <= MaxYear && 1 <= month <= 12
    requires 0 <= k < DaysInMonth(year, month)
    ensures var a := MonthDaysList(year, month, days, holidays, AsWritten)[k];
            var c := MonthDaysList(year, month, days, holidays, Corrected)[k];
            && a.(isHoliday := c.isHoliday) == c
            && (a.isHoliday != c.isHoliday <==> (a.weekday == 5 || a.weekday == 0) && a.date !in holidays)
  {
  }

  /** The list holds exactly the dates of the month, each the day after the
      one before it. */
  lemma MonthDaysListIsTheMonth(year: int, month: int, days: seq<Daily>, holidays: set<CivilDate>,
                                test: WeekendTest, d: CivilDate)
    requires MinYear <= year <= MaxYear && 1 <= month <= 12
    ensures var r := MonthDaysList(year, month, days, holidays, test);
            && (forall i :: 0 <= i < |r| - 1 ==> NextDay(r[i].date) == Some(r[i + 1].date))
            && (d.year == year && d.month == month <==> exists i :: 0 <= i < |r| && r[i].date == d)
  {
    var r := MonthDaysList(year, month, days, holidays, test);
    if d.year == year && d.month == month {
      assert r[d.day - 1].date == d;
    }
  }

  // ---------------------------------------------------------------------------
  // The calendar grid (`generate_calendar_data`)

  /** A grid cell: blank outside the month, otherwise a date, the record the
      page's date-keyed dictionary holds for it and that day's holiday
      categories. */
  datatype Cell = Cell(date: Option<CivilDate>, record: Option<Daily>, categories: seq<string>)

  /** The column of the 1st in a Sunday-first week. */
  function FirstColumn(year: int, month: int): (c: int)
    requires MinYear <= year <= MaxYear && 1 <= month <= 12
    ensures 0 <= c < 7
  {
    (Weekday(FirstOfMonth(year, month)) + 1) % 7
  }

  /** The weeks `calendar.monthcalendar` returns. */
  function WeekCount(year: int, month: int): (n: nat)
    requires MinYear <= year <= MaxYear && 1 <= month <= 12
    ensures 5 <= n + 1 && n <= 6
  {
    (FirstColumn(year, month) + DaysInMonth(year, month) + 6) / 7
  }

  /** The day number `monthcalendar` puts at week `w`, column `c` (0 outside the month). */
  function DayNumber(year: int, month: int, w: int, c: int): (k: int)
    requires MinYear <= year <= MaxYear && 1 <= month <= 12
    ensures k == 0 || 1 <= k <= DaysInMonth(year, month)
  {
    var k := w * 7 + c - FirstColumn(year, month) + 1;
    if 1 <= k <= DaysInMonth(year, month) then k else 0
  }

  function CellAt(year: int, month: int, w: int, c: int, days: seq<Daily>, categories: map<CivilDate, seq<string>>): (cell: Cell)
    requires MinYear <= year <= MaxYear && 1 <= month <= 12
  {
    var k := DayNumber(year, month, w, c);
    if k == 0 then Cell(None, None, [])
    else
      var d: CivilDate := Date(year, month, k);
      Cell(Some(d), FindLast(days, d), if d in categories then categories[d] else [])
  }

  /** `generate_calendar_data`: the month as Sunday-first weeks of seven cells. */
  function CalendarGrid(year: int, month: int, days: seq<Daily>, categories: map<CivilDate, seq<string>>): (g: seq<seq<Cell>>)
    requires MinYear <= year <= MaxYear && 1 <= month <= 12
    ensures |g| == WeekCount(year, month)
    ensures forall w :: 0 <= w < |g| ==> |g[w]| == 7
    ensures forall w, c :: 0 <= w < |g| && 0 <= c < 7 ==> g[w][c] == CellAt(year, month, w, c, days, categories)
  {
    seq(WeekCount(year, month), w requires 0 <= w < WeekCount(year, month) =>
      seq(7, c requires 0 <= c < 7 => CellAt(year, month, w, c, days, categories)))
  }

  /** Blank cells carry nothing; every other cell sits in the column of its
      weekday, Sunday first, and carries the record of its date. */
  lemma GridCells(year: int, month: int, days: seq<Daily>, categories: map<CivilDate, seq<string>>, w: int, c: int)
    requires MinYear <= year <= MaxYear && 1 <= month <= 12
    requires 0 <= w < WeekCount(year, month) && 0 <= c < 7
    ensures var cell := CalendarGrid(year, month, days, categories)[w][c];
            && (cell.date.None? ==> cell.record.None? && cell.categories == [])
            && (cell.date.Some? ==>
                  && cell.date.value.year == year && cell.date.value.month == month
                  && (Weekday(cell.date.value) + 1) % 7 == c
                  && cell.record == FindLast(days, cell.date.value))
  {
    var k := DayNumber(year, month, w, c);
    if k != 0 {
      DayInItsColumn(year, month, w, c);
    }
  }

  /** A day of the month sits in the column of its weekday. */
  lemma DayInItsColumn(year: int, month: int, w: int, c: int)
    requires MinYear <= year <= MaxYear && 1 <= month <= 12
    requires 0 <= c < 7 && DayNumber(year, month, w, c) != 0
    ensures (Weekday(Date(year, month, DayNumber(year, month, w, c))) + 1) % 7 == c
  {
    var k := DayNumber(year, month, w, c);
    WeekdayInMonth(year, month, k);
    ColumnOfDay(Weekday(FirstOfMonth(year, month)), w, c, k);
  }

  /** The column arithmetic behind `GridCells`. */
  lemma ColumnOfDay(first: int, w: int, c: int, k: int)
    requires 0 <= first < 7 && 0 <= c < 7
    requires k == w * 7 + c - (first + 1) % 7 + 1
    ensures ((first + k - 1) % 7 + 1) % 7 == c
  {
    var f := (first + 1) % 7;
    assert first + k - 1 == w * 7 + c + first - f;
    if first == 6 {
      assert f == 0;
      assert (first + k - 1) % 7 == (c + 6) % 7;
    } else {
      assert f == first + 1;
      assert first + k - 1 == w * 7 + c - 1;
    }
  }

  /** Every day of the month appears in the grid, at the week and column its
      position after the leading blanks gives; the first and the last week
      are not blank. */
  lemma GridHoldsEveryDay(year: int, month: int, days: seq<Daily>, categories: map<CivilDate, seq<string>>, k: int)
    requires MinYear <= year <= MaxYear && 1 <= month <= 12
    requires 1 <= k <= DaysInMonth(year, month)
    ensures var p := k - 1 + FirstColumn(year, month);
            var g := CalendarGrid(year, month, days, categories);
            && p / 7 < |g|
            && g[p / 7][p % 7].date == Some(Date(year, month, k))
    ensures DayNumber(year, month, 0, 6) != 0
    ensures DayNumber(year, month, WeekCount(year, month) - 1, 0) != 0
  {
    var p := k - 1 + FirstColumn(year, month);
    assert p / 7 * 7 + p % 7 == p;
  }

  /** With one record per date, the grid and the list show the same record
      for every day. */
  lemma GridAgreesWithList(year: int, month: int, days: seq<Daily>, categories: map<CivilDate, seq<string>>,
                           holidays: set<CivilDate>, test: WeekendTest, k: int)
    requires MinYear <= year <= MaxYear && 1 <= month <= 12
    requires 1 <= k <= DaysInMonth(year, month)
    requires UniqueDates(days)
    ensures var p := k - 1 + FirstColumn(year, month);
            p / 7 < WeekCount(year, month)
            && CalendarGrid(year, month, days, categories)[p / 7][p % 7].record
               == MonthDaysList(year, month, days, holidays, test)[k - 1].record
  {
    GridHoldsEveryDay(year, month, days, categories, k);
    FirstIsLastWhenUnique(days, Date(year, month, k));
  }
}
