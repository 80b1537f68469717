# Attendance time accounting: a Dafny model

This project models the core of an attendance-sheet web application. Employees
record one entry per day. Each entry has a work type (出勤, 有給, 休日(法), …), a
start and an end time. The application derives five figures per day: regular,
deduction, overtime, late-night and total hours. It sums them into a monthly
summary, keeps months in a key→text cache, and lets employees and
administrators edit, approve, copy and delete days and months.

The model covers:

- **Daily calculator** (`DailyCalc`, properties in `DailyFacts`): the five
  figures of a day. Everything is on one timeline of whole minutes. An end
  earlier than the start belongs to the next day. The fixed windows are
  18:00 for overtime and 22:30–06:00 for late-night time. The evening breaks
  are 19:30–20:00 and 22:00–22:30, and the night breaks 00:30–01:00 and
  03:00–03:30. The overtime and late-night figures are checked against an
  independent reference that counts free minutes one at a time.
- **Monthly aggregator** (`MonthlyAgg`): pushing the month's settings onto
  every day, the hour sums, the 残業換算 conversion and the day counts.
- **Month cache** (`Cache`):
  - keys;
  - the JSON document a month is written as, and its reader;
  - write, invalidate, read-through and the three-month preload.
- **Stored months** (`Store`): the rows the views act on, loading a month
  (recalculated) and committing it back.
- **Per-day views** (`DailyViews`): update, get, delete, approval request and
  `attendance_require_day`.
- **Per-month views** (`MonthlyViews`): create, delete and the settings update.
- **Copying the previous month's settings** (`UtilityViews`).
- **Month page** (`MainViews`):
  - the displayed month, the default day and the adjacent months;
  - the per-day list with its holiday flag and the Sunday-first calendar grid;
  - reading the month through the cache.
- **Administration pages** (`AdminViews`): the monthly approval actions, the
  payroll and employee-detail month navigation, and the paid-leave count.
- **Employee administration** (`Staff`, `EmployeeCsv`): the role filter of the
  employee list, the payroll page's employee filter and the CSV upload.

Supporting modules:

- `Wrappers`: `Option`.
- `Strings`: decimal text, `zfill`, `f"{n:02d}"`.
- `Calendar`: proleptic Gregorian dates, weekdays, month arithmetic.
- `Records`: work types and the day and month records.
- `Iso`: ISO 8601 text for dates and times.

Python semantics are written out where they matter:

- the truthiness of missing, null and empty values;
- `str.strip()` with the characters `str.isspace()` accepts;
- `split(' ', 1)`;
- floor division and remainder by 12;
- `zfill`;
- a `for … break` search finds the first match, while a dict built from a list
  keeps the last.

Hours are exact reals. Clock times are whole minutes.

The daily calculator and the monthly summary use different holiday sets. The
calculator treats five work types as days off: 休日(法), 祝日, 振替(法), 休日 and
振替(休). The monthly summary's legal-holiday sums use only the first three
(`Records.LegalHolidayIsDayOff` relates the two sets).

The cache reader comes in two versions, selected by a `TimeReader` parameter.
`ViaDatetime` reads clock times the way the code does, and `ViaTime` reads them
as times. Every view that reads through the cache takes the reader as a
parameter, so both behaviours can be stated (see "## Findings").

Some behaviour differs between pages. The employee detail page counts a
有給(半) day as a whole day of leave, while the monthly summary counts it as
half (`AdminViews.PaidLeaveUsedCoversDays`).

## Model

| member | source | states |
|---|---|---|
| Records.FromName | attendance/models.py:104-118 | A label reads back as a work type only if that type's label is the label; `NameRoundTrip` shows every choice reads back as itself |
| Records.NameRoundTrip | attendance/models.py:104-118 | Each of the thirteen work-type labels reads back as the work type it names |
| Records.LegalHolidayIsDayOff | attendance/structures.py:361-385 | The monthly summary's legal holidays (休日(法), 祝日, 振替(法)) are days off for the daily calculator, and the only other days off are 休日 and 振替(休) |
| Records.FirstIndexOf | attendance/views/daily_views.py:109-114 | The search finds a record exactly when one carries the date, returns the first such index and no earlier record has the date |
| Records.FindLast | attendance/views/main_views.py:156 | The date-keyed dictionary of the calendar holds a record exactly when some record has the date, and it is a record of that date |
| Records.FirstIsLastWhenUnique | attendance/views/main_views.py:109-117 | With one record per date, the list view's first match and the calendar's last match are the same record |
| DailyCalc.RolledEnd | attendance/structures.py:53-58 | An end before the start lies on the next day: the end on the timeline is within one day after the start, and the span is the clock difference taken modulo 24 hours |
| DailyCalc.RegularHours | attendance/structures.py:34-71 | Null exactly when there is no start, or no end on a day off; the standard hours when only the end is missing on a working day; with both times, the minutes from start to end (an earlier end is on the next day), less the lunch break when the start is between 09:00 and 12:00, capped at the standard hours and not clamped below |
| DailyCalc.DeductionHours | attendance/structures.py:73-94 | Null exactly when regular hours are null or the day is a day off; never negative; at least the shortfall against the standard day plus 4 hours for 有給(半), and equal to it whenever positive |
| DailyCalc.OvertimeSplit | attendance/structures.py:96-270 | Overtime and late-night minutes are never negative; no late-night time unless the end is after 22:30; nothing at all on a working day ending by 18:00 |
| DailyCalc.Compute | attendance/structures.py:272-290 | Overtime, late-night and total hours are null exactly when a time is missing; the total is regular plus overtime plus late-night; regular and deduction hours are those of the two rules |
| DailyCalc.Calculate | attendance/structures.py:27-32 | Calculation keeps every input, flag and setting of the day, and leaves a day whose figures are those of its inputs |
| DailyCalc.CalculateIdempotent | attendance/structures.py:27-32 | Recalculating a day changes nothing; a day already calculated is left as it is |
| DailyFacts.FreeMinutesByOverlap | attendance/structures.py:217-227 | Subtracting each break's overlap from a segment counts exactly the minutes outside the breaks, for breaks that do not overlap each other |
| DailyFacts.CutIsOverlap | attendance/structures.py:224-227 | The guarded `min(ends) - max(starts)` subtraction is the overlap of the break with the segment |
| DailyFacts.WorkdayOvertimeIsFreeTime | attendance/structures.py:202-237 | Working-day overtime is the number of minutes from 18:00 to the end, capped at 22:30, that fall outside the evening breaks |
| DailyFacts.LateNightIsFreeTime | attendance/structures.py:239-270 | Late-night time is the number of minutes from 22:30 to the later of next-day 06:00 and the end that fall outside the night breaks |
| DailyFacts.DayOffOvertimeIsFreeTime | attendance/structures.py:111-200 | Day-off overtime is the number of minutes worked up to 22:30 outside lunch and the evening breaks, when lunch ends by 19:30 |
| DailyFacts.WorkdayOvertimeHours | attendance/structures.py:202-237 | On a working day with both times, the overtime figure is the free time from 18:00 to the end capped at 22:30, outside the evening breaks (zero for an end by 18:00) |
| DailyFacts.LateNightHours | attendance/structures.py:239-270 | On any work type with both times, the late-night figure is the free time from 22:30 to the later of 06:00 and the end, outside the night breaks, when the end is after 22:30, and zero otherwise |
| DailyFacts.DayOffOvertimeHours | attendance/structures.py:111-200 | On a day off with both times, the overtime figure is the free time from the start to the end capped at 22:30, outside lunch and the evening breaks (zero for a start after 22:30), when lunch ends by 19:30 |
| DailyFacts.LateNightClosedForm | attendance/structures.py:239-268 | Late-night time is the window from 22:30 less one hour of breaks, so it is never below 6.5 hours |
| DailyFacts.WorkdayEndingBy18 | attendance/structures.py:202-208 | A working day ending by 18:00 has zero overtime and zero late-night hours |
| DailyFacts.WorkdayOvertimeBounds | attendance/structures.py:202-237 | Working-day overtime lies between 0 and 3.5 hours |
| DailyFacts.LateNightAtLeastSixAndAHalf | attendance/structures.py:239-268 | Any end after 22:30 earns at least 6.5 late-night hours, on any work type |
| DailyFacts.WorkdayIndependentOfStart | attendance/structures.py:202-270 | On a working day the overtime and late-night hours depend on the end alone (given the same side of midnight) |
| DailyFacts.RegularLowerBound | attendance/structures.py:60-71 | Regular hours are never below minus the lunch break, and never negative for a start outside 09:00–12:00 |
| DailyFacts.OvernightExample | attendance/structures.py:27-290 | 22:00→06:00 出勤 gives regular 8.0, deduction 0, overtime 3.5, late-night 6.5, total 18.0 |
| DailyFacts.LegalRestDayExample | attendance/structures.py:111-200 | 09:00→18:00 on 休日(法) gives 8.0 overtime and no deduction, with regular hours still counted in the total |
| DailyFacts.HalfDayLeaveExample | attendance/structures.py:86-94 | 有給(半) 09:00→14:00 gives 4.0 regular hours and an 8.0-hour deduction |
| DailyFacts.NegativeRegularExample | attendance/structures.py:60-71 | 11:30→11:45 with a 60-minute break gives −0.75 regular hours |
| DailyFacts.ShortLateShiftExample | attendance/structures.py:239-268 | One minute past 22:30 opens the whole late-night window, 6.5 hours |
| MonthlyAgg.Recompute | attendance/structures.py:307-313 | Every day keeps its inputs, carries the month's settings and has its figures recalculated |
| MonthlyAgg.CalculateAll | attendance/structures.py:307-313 | Only the day list changes; each day keeps its inputs, takes the month's settings and is calculated |
| MonthlyAgg.CalculateAllIdempotent | attendance/structures.py:307-313 | Recalculating a recalculated month changes nothing |
| MonthlyAgg.SumPartition | attendance/structures.py:315-385 | A sum over every day is the legal-holiday part plus the rest |
| MonthlyAgg.ScopedSumBounded | attendance/structures.py:339-385 | A sum of non-negative figures over part of the month lies between zero and the sum over the whole month |
| MonthlyAgg.TotalRegular | attendance/structures.py:315-326 | The month's regular hours plus the legal-holiday regular hours make up the regular hours of every day |
| MonthlyAgg.TotalDeduction | attendance/structures.py:328-337 | The month's deduction is never negative once its days are calculated |
| MonthlyAgg.TotalOvertime | attendance/structures.py:339-348 | The month's overtime is never negative once its days are calculated |
| MonthlyAgg.TotalLateNight | attendance/structures.py:350-359 | The month's late-night hours are never negative once its days are calculated |
| MonthlyAgg.TotalHolidayWork | attendance/structures.py:361-372 | Overtime worked on legal holidays is part of the month's overtime: between zero and the total |
| MonthlyAgg.HolidayNight | attendance/structures.py:374-385 | Late-night time on legal holidays is part of the month's late-night time |
| MonthlyAgg.OvertimeConversion | attendance/structures.py:387-402 | The conversion is never negative, and 1.25 times it is the premium-weighted hours less the deduction whenever positive (never less) |
| MonthlyAgg.ConversionCoversPlainHours | attendance/structures.py:387-402 | Without a deduction the conversion is at least the plain overtime plus late-night hours |
| MonthlyAgg.CountWhereAll | attendance/structures.py:404-408 | A count reaches the number of days exactly when every day satisfies the test |
| MonthlyAgg.CountWhereCountsPositions | attendance/structures.py:404-438 | The running count of a day test is the number of positions in the list whose day passes the test |
| MonthlyAgg.WorkDays | attendance/structures.py:404-408 | The number of records with a start time; never more than the days recorded, and equal to them exactly when every day has a start time |
| MonthlyAgg.LeaveBalanceByCounts | attendance/structures.py:410-421 | The running total is half the 有給(半) days plus the 有給 days minus the 欠勤 days |
| MonthlyAgg.PaidLeaveDays | attendance/structures.py:410-421 | Paid-leave days are that weighted count floored at zero |
| MonthlyAgg.PaidLeaveExample | attendance/structures.py:410-421 | One 有給, one 有給(半) and one 欠勤 give 0.5 paid-leave days |
| MonthlyAgg.SpecialLeaveDays | attendance/structures.py:423-427 | The number of records whose work type is 特別休暇, never more than the days recorded |
| MonthlyAgg.UnpaidLeaveDays | attendance/structures.py:429-438 | The number of 代休 records whose substituted work date is missing or differs from their own date, never more than the 代休 days |
| Cache.KeyIgnoresPadding | attendance/cache_utils.py:16-28 | A month written with or without its leading zero names the same cache entry |
| Cache.KeyInjective | attendance/cache_utils.py:16-28 | Keys are equal exactly when employee, year and padded month are, for employee and year free of ':' |
| Cache.DecodeDailyRoundTrip | attendance/cache_utils.py:56-72 | A written day reads back unchanged except `is_required`, which the writer does not store |
| Cache.DecodeDaysRoundTrip | attendance/cache_utils.py:104-124 | A written day list reads back as the same list with `is_required` cleared |
| Cache.DecodeMonthRoundTrip | attendance/cache_utils.py:44-76 | A written month reads back with every stored field unchanged and `is_required` cleared on each day |
| Cache.DatetimeReaderLosesTimedDay | attendance/cache_utils.py:110-111 | Read the source's way, a written day with a start or an end time fails to decode |
| Cache.DatetimeReaderLosesTimedList | attendance/cache_utils.py:106-124 | One such day makes the whole written day list fail to decode |
| Cache.Put | attendance/cache_utils.py:31-76 | A write adds the month's key with its document and the one-hour timeout, and leaves every other key as it was |
| Cache.Invalidate | attendance/cache_utils.py:147-157 | Invalidation removes the month's key and keeps every other key and its entry |
| Cache.GetWith | attendance/cache_utils.py:79-144 | A missing key misses and changes nothing; a hit leaves the cache as it was; a miss either changes nothing or deletes only that key |
| Cache.GetCachedAsWritten | attendance/cache_utils.py:79-144 | The reader as written: a missing key misses without changing the cache |
| Cache.GetCached | attendance/cache_utils.py:79-144 | The reader with times read as times: a missing key misses without change, and a hit leaves the cache as it was |
| Cache.PutThenGet | attendance/cache_utils.py:31-144 | After a write, reading the same month hits and gives the month back with `is_required` cleared |
| Cache.PutThenGetAsWritten | attendance/cache_utils.py:110-111 | Read the source's way, a written month with any clock time never comes back: the entry is deleted and the read misses |
| Cache.InvalidateThenGet | attendance/cache_utils.py:147-157 | After invalidation a read of that month misses and changes nothing, with either time reader |
| Cache.GetWithLocal | attendance/cache_utils.py:79-144 | A read of a month depends on that month's entry alone and changes no other entry |
| Cache.ReadThrough | attendance/cache_utils.py:172-201 | For either time reader: a hit is returned as the reader gives it; on a miss the stored month is returned and, when there is one, written over what the failed read left; no other entry changes; with times read as times, whatever is returned is afterwards found in the cache |
| Cache.ReadThroughLocal | attendance/cache_utils.py:172-201 | A read-through of a month depends on that month's entry alone |
| Cache.ReadThroughHitIgnoresStore | attendance/cache_utils.py:186-190 | On a hit the store's answer makes no difference |
| Cache.TimedMonthNeverStaysCached | attendance/cache_utils.py:172-201 | With times read the source's way, a month with a clock time is returned from the store, its written entry still misses, and every later read repeats the same store read and the same write |
| Cache.Wrap | attendance/cache_utils.py:225-232 | Months 1 to 12 are left as they are (0 and 13 wrap into the neighbouring year) |
| Cache.PreloadMonths | attendance/cache_utils.py:218-232 | For a real month the three months loaded are the month before, the month and the month after |
| Cache.MonthLabelInjective | attendance/cache_utils.py:236 | Distinct real months of non-negative years have distinct "YYYY-MM" labels |
| Cache.MonthKeyInjective | attendance/cache_utils.py:16-28 | Two months in 1..12 of non-negative years, read under `str(year)` and `str(month)`, have the same cache key only if they are the same month |
| Cache.ThreeMonthsSeparate | attendance/cache_utils.py:218-237 | For a month in 1..12 of a year from 1 on, the three months loaded have distinct labels and distinct cache keys |
| Cache.PreloadFrom | attendance/cache_utils.py:225-237 | The loop adds exactly one result key per month loaded |
| Cache.PreloadFromKeeps | attendance/cache_utils.py:229-237 | The loop keeps an earlier result under a label it does not write |
| Cache.PreloadFromFrame | attendance/cache_utils.py:229-237 | The loop changes no cache entry other than those of its months |
| Cache.PreloadFromReads | attendance/cache_utils.py:229-237 | For separate months, each label holds what a read-through of that month against the starting cache returns, and the month's entry is left as that read leaves it |
| Cache.Preload | attendance/cache_utils.py:204-239 | The result is keyed by the labels of the three wrapped months |
| Cache.PreloadReads | attendance/cache_utils.py:204-239 | Only the three months' entries change; for a real month each label holds the read-through of that month against the starting cache (a hit, or the stored month on a miss), and each month's entry ends as that read leaves it |
| Cache.PreloadHasThreeEntries | attendance/cache_utils.py:204-239 | For a real month of year 1 or later the result holds exactly three entries |
| Store.RowKey | attendance/utils.py:53-57 | A request's month names the stored row of its zero-padded month in the same year |
| Store.Load | attendance/utils.py:50-67 | A month loads exactly when its row is stored; its days keep their inputs, carry the month's settings and are recalculated |
| Store.Commit | attendance/utils.py:102-133 | Saving replaces the settings and days of that one row, keeps its approval flags, and drops that month's cache entry |
| DailyViews.RequestDate | attendance/views/daily_views.py:44-49 | A date is formed exactly when all three fields parse and make a valid date |
| DailyViews.Edited | attendance/views/daily_views.py:120-128 | Type and times are replaced, the substitute date only when one parsed, the notes only when sent; flags and settings are kept; figures recalculated |
| DailyViews.Fresh | attendance/views/daily_views.py:131-145 | A new day has the request's entries, notes default to "", no flags, the month's settings and calculated figures |
| DailyViews.UpdateDay | attendance/views/daily_views.py:20-160 | Errors come in the source's order (no day, no year or month, invalid date, month not stored, no work type, no start, no end) and change nothing; only a complete request on a stored month can be refused as locked or succeed; no month is added or removed |
| DailyViews.Upsert | attendance/views/daily_views.py:109-147 | The list grows by one exactly when the date was not recorded |
| DailyViews.UpdateDayWrites | attendance/views/daily_views.py:109-157 | A successful edit writes the edited list to that month only, drops that month's cache entry, and answers Updated or Created as the date was recorded or not |
| DailyViews.UpdateRefusedWhenLocked | attendance/views/daily_views.py:116-118 | For a complete request on a stored month, an edit fails exactly when the day is already requested or approved |
| DailyViews.UpsertEffect | attendance/views/daily_views.py:109-147 | Other dates keep their inputs, the day carries the requested type and times, and unique dates stay unique |
| DailyViews.UpdateDayEffect | attendance/views/daily_views.py:20-160 | A successful edit creates exactly when the date was new, leaves the day with the requested entries, touches no other record or month, and drops the cache entry |
| DailyViews.RemoveAt | attendance/views/daily_views.py:253-254 | Removing a record keeps the records before it and shifts those after it down by one |
| DailyViews.DeleteDay | attendance/views/daily_views.py:222-293 | A missing date, an unparsable date, a month not stored and a date without a record are the errors, in that order, and change nothing; it deletes exactly when the month is stored and holds the date |
| DailyViews.DeleteDate | attendance/views/daily_views.py:236-277 | For a parsed date: refused when the month is not stored or holds no record of the date, and deletes exactly when it holds one |
| DailyViews.DeleteDayWrites | attendance/views/daily_views.py:246-277 | Deleting a recorded day removes its first record from that month only and drops the month's cache entry |
| DailyViews.RemoveFirstEffect | attendance/views/daily_views.py:253-267 | With unique dates, after the removal no record of the date remains and dates stay unique |
| DailyViews.DeleteDayEffect | attendance/views/daily_views.py:222-293 | Deleting keeps every other record's inputs in order, and with unique dates the day is gone |
| DailyViews.CreateThenDelete | attendance/views/daily_views.py:20-293 | Entering a new day and deleting it again restores the month's records |
| DailyViews.Flagged | attendance/views/daily_views.py:329 | Marking a day as requested touches that one record |
| DailyViews.ApproveDay | attendance/views/daily_views.py:300-340 | A missing date, an unparsable date, a month not stored, a date without a record and a record already requested are the errors, in that order, and change nothing; otherwise the reply is Requested |
| DailyViews.ApproveDate | attendance/views/daily_views.py:310-340 | For a parsed date: refused when the month is not stored, holds no record of the date, or its first record of the date is already requested; Requested otherwise |
| DailyViews.ApproveDayWrites | attendance/views/daily_views.py:320-330 | A first request on a recorded day writes the list with that day flagged, leaves every other month as it was and drops that month's cache entry |
| DailyViews.ApproveLocksDay | attendance/views/daily_views.py:299-340 | After a request the day alone is flagged, a second request is refused, and the day can no longer be edited |
| DailyViews.RequestedDayLocked | attendance/views/daily_views.py:116-118 | A month whose first record of the date is already requested refuses both a second request and an edit of that date |
| DailyViews.RequireDay | attendance/views/daily_views.py:345-367 | A request other than a POST gets the 'Invalid request' error; a missing date and an unparsable date are the next two errors; a parsed date goes on to the flag update. The update never touches the cache, and failures change nothing |
| DailyViews.RequireDate | attendance/views/daily_views.py:354-364 | It succeeds exactly when the month and the date are stored, and then flags only the first stored record of the date |
| DailyViews.HourMinute | attendance/views/daily_views.py:203-204 | `%H:%M` gives five characters: two digits that read back as the hour, a colon, and two digits that read back as the minute |
| DailyViews.HourMinuteIsIsoTimePrefix | attendance/views/daily_views.py:203-204 | The time the day view shows is the time the cache writes (`isoformat()`, "HH:MM:00") without its seconds |
| DailyViews.GetDay | attendance/views/daily_views.py:175-215 | A missing date and an unparsable date are the two errors; a month not stored shows no record; a stored date shows the view of its first stored record |
| DailyViews.RecordOnStored | attendance/views/daily_views.py:184-208 | The record shown for a date is the stored record of that date, whatever the recalculation on load does |
| DailyViews.UpdateThenGet | attendance/views/daily_views.py:20-215 | After a successful edit, reading the day back shows the entered work type and times |
| MonthlyViews.UpdateSettings | attendance/views/monthly_views.py:153-213 | Missing year or month and a month not stored are reported in that order; failures change nothing; no month is added or removed |
| MonthlyViews.UpdateSettingsEffect | attendance/views/monthly_views.py:176-197 | The sent settings replace the old ones and the rest are kept; every day keeps its inputs, takes the new settings and is recalculated; flags and other months are kept; the cache entry is dropped |
| MonthlyViews.UpdateSettingsIdempotent | attendance/views/monthly_views.py:176-197 | Sending the same settings twice leaves the same stored months and cache as sending them once |
| MonthlyViews.DeleteMonth | attendance/views/monthly_views.py:88-146 | It succeeds exactly when year and month are given and the month is stored; the row goes with all its days and the cache entry is dropped |
| MonthlyViews.DeleteMonthForgets | attendance/views/monthly_views.py:110-132 | After a deletion neither the store nor the cache has the month, with either time reader |
| MonthlyViews.NewMonthKey | attendance/views/monthly_views.py:38-40 | With year and month posted, the new row is that zero-padded month |
| MonthlyViews.CreateMonth | attendance/views/monthly_views.py:27-67 | It is refused exactly when the month already exists; a new month has the posted settings, no days and no flags; the cache is not touched |
| MonthlyViews.CreateThenLoad | attendance/views/monthly_views.py:27-67 | A created month loads, under its month with or without the leading zero, as an empty month with the posted settings |
| MonthlyViews.CreateThenDeleteMonth | attendance/views/monthly_views.py:27-146 | Creating a month and deleting it again restores the stored months |
| UtilityViews.PrevMonth | attendance/views/utility_views.py:17-21 | For a real month the previous month is one step back in month order |
| UtilityViews.NumericKey | attendance/views/utility_views.py:23-27 | `f"{month:02d}"` names the same row as the zero-padded decimal month |
| UtilityViews.NumericKeyMonth | attendance/views/utility_views.py:25-27 | A month below 100 is written as two digits that read back as the month |
| UtilityViews.CopiedRow | attendance/views/utility_views.py:47-57 | A copied month has the previous month's four settings, no flags and no days |
| UtilityViews.CopyPrevMonth | attendance/views/utility_views.py:12-60 | Unparsable input, a missing previous month and an existing month are each reported exactly when they occur, and change nothing; a copy adds the one month and leaves the cache alone |
| UtilityViews.CopyNeverOverwrites | attendance/views/utility_views.py:34-58 | A copy never changes a stored month and adds at most one |
| UtilityViews.CopyIntoJanuary | attendance/views/utility_views.py:17-57 | A January copy reads December of the year before, and the new month loads empty with December's settings |
| MainViews.DisplayedMonth | attendance/views/main_views.py:28-41 | Without year or month the page shows today's month; otherwise it shows that month, when it is a valid date |
| MainViews.DefaultDay | attendance/views/main_views.py:45-56 | Today in the current month, the last day of a past month, the 1st of a future one, always a valid day |
| MainViews.AdjacentMonth | attendance/views/main_views.py:78-81 | The month `diff` steps away in month order, for any shift, with the month in 1..12 |
| MainViews.HolidayMonthsArePreloaded | attendance/views/main_views.py:78-81 | The page reads holidays for the same three months the cache preloads |
| MainViews.PreviousMonthRow | attendance/views/main_views.py:131-143 | The previous month's row is found exactly when it is stored under the two-digit month |
| MainViews.MonthForPage | attendance/views/main_views.py:58-63 | For either time reader: on a cache miss the page shows the stored month, and on a hit the month the reader gives |
| MainViews.PageSeesCommit | attendance/views/main_views.py:58-63 | After any save of a month, the page reads that month from the store, not from a stale entry |
| MainViews.TimedMonthPageReadsStore | attendance/views/main_views.py:58-63 | With times read the source's way, a stored month with a clock time is shown from the store, and the next view of the page misses the cache and shows it again |
| MainViews.RequireDayOnPage | attendance/views/daily_views.py:345-366 | After `attendance_require_day` on a day with a clock time, the page as written shows the new flag (read from the store), while with times read as times it serves the cached month without the flag |
| MainViews.SaturdayMissedAsWritten | attendance/views/main_views.py:118-119 | The weekday test as written does not flag Saturday 8 June 2024 |
| MainViews.MondayFlaggedAsWritten | attendance/views/main_views.py:118-119 | The weekday test as written flags Monday 10 June 2024 |
| MainViews.WeekendShiftedByOneDay | attendance/views/main_views.py:118-119 | In every week the intended test flags Saturday and Sunday, the test as written Sunday and Monday |
| MainViews.MonthDaysList | attendance/views/main_views.py:101-121 | One entry per day of the month in order, each with its weekday and the first record of that date. The holiday flag follows the test chosen: as written it is Sunday, Monday or a calendar holiday; corrected it is Saturday, Sunday or a calendar holiday |
| MainViews.MonthDaysListTestsDiffer | attendance/views/main_views.py:118-119 | The list as written and the corrected list agree on every entry except the flag, and the flag differs exactly on the Saturdays and Mondays that are not calendar holidays |
| MainViews.MonthDaysListIsTheMonth | attendance/views/main_views.py:104-110 | The list holds exactly the dates of the month, each the day after the one before |
| MainViews.CalendarGrid | attendance/views/main_views.py:151-172 | The grid has the month's weeks of seven cells each |
| MainViews.GridCells | attendance/views/main_views.py:151-172 | Blank cells carry nothing; every dated cell sits in its weekday's column, Sunday first, and carries the record of its date |
| MainViews.GridHoldsEveryDay | attendance/views/main_views.py:155-170 | Every day of the month appears in the grid, and neither the first nor the last week is blank |
| MainViews.GridAgreesWithList | attendance/views/main_views.py:109-170 | With one record per date, the grid and the list show the same record for every day |
| AdminViews.ApplyAction | attendance/admin_views.py:175-199 | Only the two flags change; a recognised action never leaves both set; confirmed exactly after `approve`, requested exactly after `request`; anything else changes nothing and is reported invalid |
| AdminViews.ApprovalAction | attendance/admin_views.py:175-199 | A month that does not exist is not found and nothing changes; otherwise only that month's flags change |
| AdminViews.LastRecognised | attendance/admin_views.py:177-198 | The result is a recognised action of the run with no recognised action after it; there is none exactly when no action in the run is recognised |
| AdminViews.LastActionDecides | attendance/admin_views.py:175-199 | After a run of actions the flags depend only on the last recognised one; with none, the month is unchanged |
| AdminViews.ActionsKeepConsistent | attendance/admin_views.py:175-199 | A month never both requested and confirmed stays so under any actions |
| AdminViews.PayrollNavigation | attendance/admin_views.py:78-90 | For a real month the links are the month before and after in month order, with two-digit months |
| AdminViews.PayrollLinksAreMonths | attendance/admin_views.py:88-90 | Both month links are two digits naming a month 1..12 |
| AdminViews.PayrollMonth | attendance/admin_views.py:59-61 | The query's year and month when given; otherwise today's year and today's month in two digits |
| AdminViews.DetailNavigation | attendance/admin_views.py:118-119 | Defined exactly where the date arithmetic succeeds; gives the last day of the month before and the 1st of the month after |
| AdminViews.NavigationAgrees | attendance/admin_views.py:78-119 | Where the detail page can navigate, it links the same months as the payroll page |
| AdminViews.ContainsFirst | attendance/admin_views.py:116 | Text containing a non-empty pattern contains its first character |
| AdminViews.PaidLeaveLabels | attendance/admin_views.py:116 | The work types whose label contains 有給 are exactly 有給 and 有給(半) |
| AdminViews.PaidLeaveUsedByType | attendance/admin_views.py:116 | Paid leave used is the number of 有給 days plus the number of 有給(半) days |
| AdminViews.PaidLeaveUsedCoversDays | attendance/admin_views.py:116 | The detail page never shows less leave than the monthly summary, and shows the same amount exactly when the month has no half days and not both absences and 有給 days |
| Staff.Select | attendance/admin.py:115-125 | A filtered list holds exactly the listed employees that pass the test |
| Staff.VisibleByRole | attendance/admin.py:115-125 | Everyone for a superuser, 사장, 인사팀 or 관리부장; the same workplace for a 부장; otherwise one's own employee number |
| Staff.OwnRecordVisible | attendance/admin.py:115-125 | Every listed user sees their own record, and a privileged user sees everything anyone sees |
| Staff.PayrollEmployees | attendance/admin_views.py:62-66 | Every active employee for a superuser, 社長, 人事 or 経理; otherwise only one's own active record |
| Staff.PayrollAndAdminGroupsDiffer | attendance/admin_views.py:63 | A 人事 member who is not a superuser sees every payslip but only their own record in the employee admin |
| EmployeeCsv.LeadingSpace | attendance/admin.py:63-66 | The characters `lstrip` removes are all whitespace, and the next one is not |
| EmployeeCsv.TextEnd | attendance/admin.py:63-66 | The characters `rstrip` removes are all whitespace, and the last one kept is not |
| EmployeeCsv.Strip | attendance/admin.py:63-66 | The result has no whitespace at either end and is no longer than the input |
| EmployeeCsv.StripPadded | attendance/admin.py:63-66 | Text surrounded by whitespace strips to the text |
| EmployeeCsv.StripIdempotent | attendance/admin.py:63-66 | Stripping twice is stripping once |
| EmployeeCsv.FirstSpace | attendance/admin.py:72-73 | The first space, or none exactly when there is no space |
| EmployeeCsv.SplitName | attendance/admin.py:71-75 | The last name holds no space; with a space, the two parts joined by a space give the name back; without, the whole name is the last name |
| EmployeeCsv.SplitJoinedName | attendance/admin.py:72-73 | A last name without spaces, a space and any first name split back into the two parts |
| EmployeeCsv.NewEmployee | attendance/admin.py:79-89 | The new account has the row's number, place and e-mail, the name split back, and is active, not a superuser, and in no group |
| EmployeeCsv.Proposes | attendance/admin.py:61-68 | A row proposes at most one number, and only a six-character one |
| EmployeeCsv.Step | attendance/admin.py:60-90 | Each row is counted once; short rows are skipped; an employee is created exactly when the number is six characters and neither stored nor created earlier |
| EmployeeCsv.Process | attendance/admin.py:58-90 | Created, reported and skipped rows add up to the rows of the file |
| EmployeeCsv.UploadCreatesFresh | attendance/admin.py:58-90 | Every created employee has a six-character number not stored before, and no number is created twice |
| EmployeeCsv.UploadCreatesProposed | attendance/admin.py:58-90 | Afterwards the known numbers are the stored ones plus every number a well-formed row proposed, and nothing else |
| EmployeeCsv.UploadMessage | attendance/admin.py:91-96 | The message starts with the count of created employees, and it is a warning exactly when rows were reported |

## Left out

- The HTTP layer, templates, messages' HTML and the `print` logging are not modelled. Views are functions from the stored state and the parsed request to a reply and the new state.
- `json.loads` of request bodies, `int()`, `float()` and `strptime` are not modelled. Request fields arrive already classified as missing or empty, as given with a parsed value, or as given but unparsable.
- A work type outside the thirteen choices is not modelled: the model has an enumeration, so a free-text label cannot occur.
- `update_monthly_from_structure` (utils.py:102-133) saves day by day into the existing rows. The model replaces the row's day list with the structure's list. With one record per date, and the delete view removing the day's rows first, the two agree.
- The derived hours are not stored in the database. The model keeps them on the stored days, but every load recalculates them, so nothing reads them there.
- Floating-point rounding is not modelled: hours are exact reals. This covers `round(x, 2)` and `round(x, 1)` in the summary properties and the float division by 1.25.
- The cache's text layer (`json.dumps` / `json.loads`) is abstracted to document trees. The one-hour timeout is recorded on each entry but no clock expires it. `invalidate_employee_cache` and the `get_monthly_attendance` / `set_monthly_attendance` helpers are not modelled, because no modelled view calls them.
- The holiday database query of the month page is not modelled. It becomes parameters: a set of holiday dates and a map from dates to categories.
- The page's choice between the common calendar and the month's own calendar is not modelled either.
- `overtime_total` of the employee detail page (admin_views.py:115) is not modelled, because it is a display-only difference of clock hours.
- The detail page's lookups by `get_object_or_404` are not modelled: the employee is assumed to exist.
- `MonthlyBulkInfoView`, the profile, overview, payroll detail, PDF download and daily calendar pages, the report views, and the Excel and PDF generators are outside the modelled core.
- Reading the CSV file (`csv.reader`, UTF-8 decoding) is not modelled: rows arrive as lists of fields. `set_password('0000')` is not modelled, because the model has no password field.
- MainViews.DisplayedMonth: a year or month that `int()` rejects raises in the source. The model only has a given or missing number, so that case is not represented.
- MonthlyAgg.TotalRegular, MonthlyAgg.TotalDeduction, MonthlyAgg.TotalOvertime and MonthlyAgg.TotalLateNight: their contracts state sign and partition facts, not the rounded value the source returns, because rounding is not modelled.
- DailyViews.UpdateDay: its own contract states every error except `Locked`, which UpdateRefusedWhenLocked states; what a successful edit writes is stated by UpdateDayEffect and UpdateDayWrites.
- Store.Load: the source orders a month's days by date (utils.py:28-31); the model keeps them in stored order. Every lookup by date agrees with the ordered list's, because the unique constraint on month and date (models.py:137) allows one record per date; sums and counts do not depend on order.
- Cache.DecodeDaily: a field of the wrong JSON type (a number where text is expected, say) makes the model's decode fail, so the read misses and deletes the entry. The source checks no types: it uses such a value as it is, or raises a TypeError that the reader does not catch, and the entry stays. Only documents the writer produced reach the cache, so this arises only for entries written by other code.

## Findings

| source | as written | input that shows it | evidently intended | confidence | as-written member | corrected member |
|---|---|---|---|---|---|---|
| attendance/cache_utils.py:110-111 | Cached start and end times are read with `datetime.fromisoformat(...)`. What the writer stored is `time.isoformat()` text ("HH:MM:SS"), which has no date part, so the read raises ValueError. The entry is then deleted and the read misses. | Any cached month with one day whose start or end time is set, e.g. 09:00 → "09:00:00" | Read the times with `time.fromisoformat`, so a written month reads back | not executed | Cache.GetCachedAsWritten, with Cache.PutThenGetAsWritten and Cache.DatetimeReaderLosesTimedDay | Cache.GetCached (the `ViaTime` reader), with Cache.PutThenGet; Cache.ReadThrough, Cache.Preload and MainViews.MonthForPage take the reader as a parameter, and Cache.TimedMonthNeverStaysCached, MainViews.TimedMonthPageReadsStore and MainViews.RequireDayOnPage state the difference it makes |
| attendance/views/main_views.py:119 | `weekday() == 6 or weekday() == 0` flags Sunday and Monday, since `weekday()` counts Monday as 0. The comment above it says Saturday and Sunday. | Saturday 2024-06-08 (weekday 5) is not flagged; Monday 2024-06-10 (weekday 0) is | `weekday() == 5 or weekday() == 6` | not executed | MainViews.IsHolidayAsWritten, which MainViews.MonthDaysList applies under `AsWritten`, with MainViews.SaturdayMissedAsWritten, MainViews.MondayFlaggedAsWritten and MainViews.MonthDaysListTestsDiffer | MainViews.IsHoliday, which MainViews.MonthDaysList applies under `Corrected`, with MainViews.WeekendShiftedByOneDay |
