/** The records the time-accounting engine works on: a day's attendance
    (`DailyData`), a month of them (`MonthlyData`), and the stored month row. */
module Records {
  import opened Wrappers
  import opened Calendar

  /** The attendance categories a day may be declared as (`WORK_TYPE_CHOICES`). */
  datatype WorkType =
    | Attendance          // 出勤
    | PaidLeave           // 有給
    | HalfPaidLeave       // 有給(半)
    | CompensatoryRest    // 代休
    | SubstituteRest      // 振替(休)
    | SubstituteLegal     // 振替(法)
    | SubstituteWork      // 振替(勤)
    | SpecialLeave        // 特別休暇
    | Absence             // 欠勤
    | RestDay             // 休日
    | LegalRestDay        // 休日(法)
    | NationalHoliday     // 祝日
    | OtherType           // その他

  /** The label stored in the database and in the cache. */
  function Name(w: WorkType): string
  {
    match w
    case Attendance => "出勤"
    case PaidLeave => "有給"
    case HalfPaidLeave => "有給(半)"
    case CompensatoryRest => "代休"
    case SubstituteRest => "振替(休)"
    case SubstituteLegal => "振替(法)"
    case SubstituteWork => "振替(勤)"
    case SpecialLeave => "特別休暇"
    case Absence => "欠勤"
    case RestDay => "休日"
    case LegalRestDay => "休日(法)"
    case NationalHoliday => "祝日"
    case OtherType => "その他"
  }

  /** The work type with a given label, if it is one of the choices. */
  function FromName(s: string): (r: Option<WorkType>)
    ensures r.Some? ==> Name(r.value) == s
  {
    if s == "出勤" then Some(Attendance)
    else if s == "有給" then Some(PaidLeave)
    else if s == "有給(半)" then Some(HalfPaidLeave)
    else if s == "代休" then Some(CompensatoryRest)
    else if s == "振替(休)" then Some(SubstituteRest)
    else if s == "振替(法)" then Some(SubstituteLegal)
    else if s == "振替(勤)" then Some(SubstituteWork)
    else if s == "特別休暇" then Some(SpecialLeave)
    else if s == "欠勤" then Some(Absence)
    else if s == "休日" then Some(RestDay)
    else if s == "休日(法)" then Some(LegalRestDay)
    else if s == "祝日" then Some(NationalHoliday)
    else if s == "その他" then Some(OtherType)
    else None
  }

  /** Every label reads back as the work type it names. */
  lemma NameRoundTrip(w: WorkType)
    ensures FromName(Name(w)) == Some(w)
  {
  }

  /** The five types the daily calculator treats as days off:
      休日(法), 祝日, 振替(法), 休日, 振替(休). A missing type is none of them. */
  predicate IsDayOff(w: Option<WorkType>)
  {
    w == Some(LegalRestDay) || w == Some(NationalHoliday) || w == Some(SubstituteLegal)
    || w == Some(RestDay) || w == Some(SubstituteRest)
  }

  /** The three legal holiday types the monthly summary singles out:
      休日(法), 祝日, 振替(法). */
  predicate IsLegalHoliday(w: Option<WorkType>)
  {
    w == Some(LegalRestDay) || w == Some(NationalHoliday) || w == Some(SubstituteLegal)
  }

  /** The monthly legal holidays are a strict subset of the daily days off. */
  lemma LegalHolidayIsDayOff(w: Option<WorkType>)
    ensures IsLegalHoliday(w) ==> IsDayOff(w)
    ensures IsDayOff(w) && !IsLegalHoliday(w) <==> w == Some(RestDay) || w == Some(SubstituteRest)
  {
  }

  datatype Clock = Clock(hour: int, minute: int)

  /** A wall-clock time of whole minutes (Python's `time` with zero seconds). */
  type TimeOfDay = t: Clock | 0 <= t.hour < 24 && 0 <= t.minute < 60 witness Clock(0, 0)

  /** Minutes since midnight. */
  function MinuteOfDay(t: TimeOfDay): (n: int)
    ensures 0 <= n < 1440
  {
    t.hour * 60 + t.minute
  }

  /** The five figures derived from a day's inputs, each nullable. */
  datatype Hours = Hours(
    regular: Option<real>,
    deduction: Option<real>,
    overtime: Option<real>,
    lateNight: Option<real>,
    total: Option<real>)

  /** Hours before any calculation: every figure is null. */
  const NoHours := Hours(None, None, None, None, None)

  /** One day's attendance (`DailyData`): its inputs, the month settings copied
      onto it, and the derived figures. */
  datatype Daily = Daily(
    date: CivilDate,
    workType: Option<WorkType>,
    start: Option<TimeOfDay>,
    end: Option<TimeOfDay>,
    altDate: Option<CivilDate>,
    notes: Option<string>,
    isRequired: bool,
    isConfirmed: bool,
    breakMinutes: int,
    standardHours: real,
    hours: Hours)

  /** Two records carry the same user inputs and approval flags. */
  predicate SameInputs(a: Daily, b: Daily)
  {
    a.date == b.date && a.workType == b.workType && a.start == b.start && a.end == b.end
    && a.altDate == b.altDate && a.notes == b.notes
    && a.isRequired == b.isRequired && a.isConfirmed == b.isConfirmed
  }

  /** A month of attendance as the views and the cache see it (`MonthlyData`). */
  datatype Monthly = Monthly(
    employeeId: string,
    year: string,
    month: string,
    projectName: string,
    baseCalendar: string,
    breakMinutes: int,
    standardHours: real,
    days: seq<Daily>)

  /** The key of a stored month: its year and zero-padded month, as strings. */
  datatype MonthKey = MonthKey(year: string, month: string)

  /** A stored month (`AttendanceMonthly` with its `AttendanceDaily` rows). */
  datatype MonthRow = MonthRow(
    projectName: string,
    baseCalendar: string,
    breakMinutes: int,
    standardHours: real,
    isConfirmed: bool,
    isRequired: bool,
    days: seq<Daily>)

  /** The database's unique constraint: at most one record per date. */
  predicate UniqueDates(days: seq<Daily>)
  {
    forall i, j :: 0 <= i < j < |days| ==> days[i].date != days[j].date
  }

  /** Whether some record carries date `d`. */
  predicate HasDate(days: seq<Daily>, d: CivilDate)
  {
    exists i :: 0 <= i < |days| && days[i].date == d
  }

  /** Index of the first record with date `d`, as the views' `for … break` loops find it. */
  function FirstIndexOf(days: seq<Daily>, d: CivilDate): (r: Option<nat>)
    ensures r.None? <==> !HasDate(days, d)
    ensures r.Some? ==> r.value < |days| && days[r.value].date == d
    ensures r.Some? ==> forall j :: 0 <= j < r.value ==> days[j].date != d
  {
    if |days| == 0 then None
    else if days[0].date == d then Some(0)
    else
      var t := FirstIndexOf(days[1..], d);
      assert HasDate(days[1..], d) ==> HasDate(days, d);
      assert HasDate(days, d) ==> days[0].date == d || HasDate(days[1..], d);
      if t.Some? then Some(t.value + 1) else None
  }

  /** The first record with date `d`, or `None`. */
  function FindFirst(days: seq<Daily>, d: CivilDate): (r: Option<Daily>)
    ensures r.None? <==> !HasDate(days, d)
    ensures r.Some? ==> r.value in days && r.value.date == d
  {
    var i := FirstIndexOf(days, d);
    if i.Some? then Some(days[i.value]) else None
  }

  /** The last record with date `d`: what `{daily.date: daily for daily in days}` keeps. */
  function FindLast(days: seq<Daily>, d: CivilDate): (r: Option<Daily>)
    ensures r.None? <==> !HasDate(days, d)
    ensures r.Some? ==> r.value in days && r.value.date == d
  {
    if |days| == 0 then None
    else
      var t := FindLast(days[..|days| - 1], d);
      assert HasDate(days[..|days| - 1], d) ==> HasDate(days, d);
      assert HasDate(days, d) ==> days[|days| - 1].date == d || HasDate(days[..|days| - 1], d);
      if days[|days| - 1].date == d then Some(days[|days| - 1]) else t
  }

  /** With unique dates the first and the last match are the same record, so
      the list view and the calendar view show the same record for a date. */
  lemma {:induction false} FirstIsLastWhenUnique(days: seq<Daily>, d: CivilDate)
    requires UniqueDates(days)
    ensures FindFirst(days, d) == FindLast(days, d)
  {
    if |days| > 0 {
      var init := days[..|days| - 1];
      assert UniqueDates(init);
      FirstIsLastWhenUnique(init, d);
      if days[|days| - 1].date == d {
        assert !HasDate(init, d);
        assert FirstIndexOf(days, d) == Some(|days| - 1);
      } else if HasDate(init, d) {
        var i := FirstIndexOf(init, d).value;
        assert FirstIndexOf(days, d) == Some(i) by {
          FirstIndexOfPrefix(days, d);
        }
      } else {
        assert !HasDate(days, d);
      }
    }
  }

  /** A match within a prefix is found at the same index in the whole list. */
  lemma {:induction false} FirstIndexOfPrefix(days: seq<Daily>, d: CivilDate)
    requires |days| > 0 && HasDate(days[..|days| - 1], d)
    ensures FirstIndexOf(days, d) == FirstIndexOf(days[..|days| - 1], d)
  {
    var init := days[..|days| - 1];
    if days[0].date != d {
      assert |init| > 0 && init[0] == days[0];
      assert HasDate(init[1..], d) by {
        var k :| 0 <= k < |init| && init[k].date == d;
        assert k > 0 && init[1..][k - 1] == init[k];
      }
      assert init[1..] == days[1..][..|days[1..]| - 1];
      FirstIndexOfPrefix(days[1..], d);
    }
  }
}
