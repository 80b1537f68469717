/** Proleptic Gregorian calendar arithmetic, as Python's `datetime.date` and
    `calendar` modules provide it to the attendance views. */
module Calendar {
  import opened Wrappers

  const MinYear := 1
  const MaxYear := 9999

  predicate IsLeap(y: int)
  {
    y % 4 == 0 && (y % 100 != 0 || y % 400 == 0)
  }

  /** `calendar.monthrange(y, m)[1]`. */
  function DaysInMonth(y: int, m: int): (n: int)
    requires 1 <= m <= 12
    ensures 28 <= n <= 31
    ensures n == 29 <==> m == 2 && IsLeap(y)
  {
    if m == 2 then (if IsLeap(y) then 29 else 28)
    else if m == 4 || m == 6 || m == 9 || m == 11 then 30
    else 31
  }

  /** What `date(y, m, d)` accepts without raising `ValueError`. */
  predicate ValidDate(y: int, m: int, d: int)
  {
    MinYear <= y <= MaxYear && 1 <= m <= 12 && 1 <= d <= DaysInMonth(y, m)
  }

  datatype Date = Date(year: int, month: int, day: int)

  /** A value of Python's `date`. */
  type CivilDate = d: Date | ValidDate(d.year, d.month, d.day) witness Date(1, 1, 1)

  /** `date(y, m, 1)`. */
  function FirstOfMonth(y: int, m: int): (d: CivilDate)
    requires MinYear <= y <= MaxYear && 1 <= m <= 12
    ensures d.year == y && d.month == m && d.day == 1
  {
    Date(y, m, 1)
  }

  /** `date(y, m, monthrange(y, m)[1])`. */
  function LastOfMonth(y: int, m: int): (d: CivilDate)
    requires MinYear <= y <= MaxYear && 1 <= m <= 12
    ensures d.year == y && d.month == m && d.day == DaysInMonth(y, m)
  {
    Date(y, m, DaysInMonth(y, m))
  }

  /** Chronological order of dates: Python's `<` on `date`. */
  predicate Before(a: Date, b: Date)
  {
    a.year < b.year
    || (a.year == b.year && a.month < b.month)
    || (a.year == b.year && a.month == b.month && a.day < b.day)
  }

  predicate NotAfter(a: Date, b: Date)
  {
    a == b || Before(a, b)
  }

  /** Days in the years before `y`, counting from 0001-01-01. */
  function DaysBeforeYear(y: int): int
  {
    var p := y - 1;
    p * 365 + p / 4 - p / 100 + p / 400
  }

  /** Days in the months of year `y` before month `m`. */
  function DaysBeforeMonth(y: int, m: int): int
    requires 1 <= m <= 12
  {
    var common :=
      if m == 1 then 0 else if m == 2 then 31 else if m == 3 then 59
      else if m == 4 then 90 else if m == 5 then 120 else if m == 6 then 151
      else if m == 7 then 181 else if m == 8 then 212 else if m == 9 then 243
      else if m == 10 then 273 else if m == 11 then 304 else 334;
    common + (if m > 2 && IsLeap(y) then 1 else 0)
  }

  /** `date.toordinal()`: 0001-01-01 is day 1. */
  function Ordinal(d: CivilDate): int
  {
    DaysBeforeYear(d.year) + DaysBeforeMonth(d.year, d.month) + d.day
  }

  /** `date.weekday()`: Monday is 0 and Sunday is 6. */
  function Weekday(d: CivilDate): (w: int)
    ensures 0 <= w < 7
  {
    (Ordinal(d) + 6) % 7
  }

  /** `d + timedelta(days=1)`; `None` where Python raises `OverflowError`. */
  function NextDay(d: CivilDate): (r: Option<CivilDate>)
    ensures r.None? <==> d == Date(MaxYear, 12, 31)
  {
    if d.day < DaysInMonth(d.year, d.month) then Some(Date(d.year, d.month, d.day + 1))
    else if d.month < 12 then Some(Date(d.year, d.month + 1, 1))
    else if d.year < MaxYear then Some(Date(d.year + 1, 1, 1))
    else None
  }

  /** `d - timedelta(days=1)`; `None` where Python raises `OverflowError`. */
  function PrevDay(d: CivilDate): (r: Option<CivilDate>)
    ensures r.None? <==> d == Date(MinYear, 1, 1)
  {
    if d.day > 1 then Some(Date(d.year, d.month, d.day - 1))
    else if d.month > 1 then Some(Date(d.year, d.month - 1, DaysInMonth(d.year, d.month - 1)))
    else if d.year > MinYear then Some(Date(d.year - 1, 12, 31))
    else None
  }

  // ---------------------------------------------------------------------------
  // A reference numbering of months, used to state every adjacent-month
  // formula of the views against one definition.

  /** Months elapsed since January of year 0. */
  function MonthIndex(y: int, m: int): int
  {
    y * 12 + (m - 1)
  }

  /** The (year, month) whose index is `i`. */
  function MonthAt(i: int): (r: (int, int))
    ensures 1 <= r.1 <= 12
    ensures MonthIndex(r.0, r.1) == i
  {
    (i / 12, i % 12 + 1)
  }

  /** The months either side of a real month, spelled out. */
  lemma MonthNeighbours(y: int, m: int)
    requires 1 <= m <= 12
    ensures MonthAt(MonthIndex(y, m) - 1) == (if m == 1 then (y - 1, 12) else (y, m - 1))
    ensures MonthAt(MonthIndex(y, m) + 1) == (if m == 12 then (y + 1, 1) else (y, m + 1))
  {
    var i := MonthIndex(y, m);
    if m == 1 {
      assert i - 1 == (y - 1) * 12 + 11;
    } else {
      assert i - 1 == y * 12 + (m - 2);
    }
    if m == 12 {
      assert i + 1 == (y + 1) * 12;
    } else {
      assert i + 1 == y * 12 + m;
    }
  }

  lemma MonthAtIndex(y: int, m: int)
    requires 1 <= m <= 12
    ensures MonthAt(MonthIndex(y, m)) == (y, m)
  {
  }

  // ---------------------------------------------------------------------------
  // Lemmas linking the successor function to the ordinal numbering.

  /** Stepping past a multiple of 4, 100 or 400 raises the quotient by one. */
  lemma DivStep4(p: int)
    ensures (p + 1) / 4 - p / 4 == (if (p + 1) % 4 == 0 then 1 else 0)
  {
  }

  lemma DivStep100(p: int)
    ensures (p + 1) / 100 - p / 100 == (if (p + 1) % 100 == 0 then 1 else 0)
  {
  }

  lemma DivStep400(p: int)
    ensures (p + 1) / 400 - p / 400 == (if (p + 1) % 400 == 0 then 1 else 0)
  {
  }

  /** Adding to a number shifts its remainder modulo 7 by the same amount. */
  lemma ModSeven(a: int, b: int)
    ensures (a + b) % 7 == (a % 7 + b) % 7
  {
    var q := a / 7;
    assert a == 7 * q + a % 7;
    assert a + b == 7 * q + (a % 7 + b);
  }

  /** Divisibility by 400 implies by 100, which implies by 4. */
  lemma DivisibilityChain(y: int)
    ensures y % 400 == 0 ==> y % 100 == 0
    ensures y % 100 == 0 ==> y % 4 == 0
  {
    if y % 400 == 0 {
      Hundreds(y / 400 * 4);
      assert y == y / 400 * 4 * 100;
    }
    if y % 100 == 0 {
      Fours(y / 100 * 25);
      assert y == y / 100 * 25 * 4;
    }
  }

  lemma Hundreds(k: int)
    ensures (k * 100) % 100 == 0
  {
  }

  lemma Fours(k: int)
    ensures (k * 4) % 4 == 0
  {
  }

  /** The day count of `DaysBeforeYear` as plain arithmetic on `p = y - 1`. */
  lemma YearStep(p: int)
    ensures ((p + 1) * 365 + (p + 1) / 4 - (p + 1) / 100 + (p + 1) / 400)
            - (p * 365 + p / 4 - p / 100 + p / 400)
            == 365 + (if (p + 1) % 4 == 0 then 1 else 0) - (if (p + 1) % 100 == 0 then 1 else 0)
               + (if (p + 1) % 400 == 0 then 1 else 0)
  {
    DivStep4(p);
    DivStep100(p);
    DivStep400(p);
    assert (p + 1) * 365 == p * 365 + 365;
  }

  lemma YearLength(y: int)
    ensures DaysBeforeYear(y + 1) - DaysBeforeYear(y) == (if IsLeap(y) then 366 else 365)
  {
    YearStep(y - 1);
    DivisibilityChain(y);
  }

  /** Moving to the next day moves the ordinal by exactly one. */
  lemma NextDayOrdinal(d: CivilDate)
    requires NextDay(d).Some?
    ensures Ordinal(NextDay(d).value) == Ordinal(d) + 1
  {
    if d.day < DaysInMonth(d.year, d.month) {
    } else if d.month < 12 {
    } else {
      YearLength(d.year);
    }
  }

  /** Moving to the previous day moves the ordinal back by exactly one. */
  lemma PrevDayOrdinal(d: CivilDate)
    requires PrevDay(d).Some?
    ensures Ordinal(PrevDay(d).value) == Ordinal(d) - 1
  {
    if d.day > 1 {
    } else if d.month > 1 {
    } else {
      YearLength(d.year - 1);
    }
  }

  /** Weekdays cycle: the day after a Sunday is a Monday. */
  lemma NextDayWeekday(d: CivilDate)
    requires NextDay(d).Some?
    ensures Weekday(NextDay(d).value) == (Weekday(d) + 1) % 7
  {
    NextDayOrdinal(d);
    ModSeven(Ordinal(d) + 6, 1);
  }

  /** Within a month, the weekday advances with the day number. */
  lemma WeekdayInMonth(y: int, m: int, k: int)
    requires ValidDate(y, m, k)
    ensures Weekday(Date(y, m, k)) == (Weekday(Date(y, m, 1)) + k - 1) % 7
  {
    ModSeven(Ordinal(Date(y, m, 1)) + 6, k - 1);
  }

  /** The successor is the earliest date after `d`. */
  lemma NextDayIsSuccessor(d: CivilDate, e: CivilDate)
    requires NextDay(d).Some?
    ensures Before(d, NextDay(d).value)
    ensures Before(d, e) ==> NotAfter(NextDay(d).value, e)
  {
  }
}
