/** The persistent state the views act on: one employee's month rows (the
    `AttendanceMonthly` table with its `AttendanceDaily` rows) and the cache. */
module Store {
  import opened Wrappers
  import opened Strings
  import opened Records
  import opened DailyCalc
  import opened MonthlyAgg
  import opened Cache

  datatype World = World(employee: string, rows: map<MonthKey, MonthRow>, cache: CacheMap)

  /** The row a (year, month) request names: months are stored zero-padded. */
  function RowKey(year: string, month: string): (k: MonthKey)
    ensures k.year == year && |k.month| >= 2
  {
    MonthKey(year, ZFill(month, 2))
  }

  /** A stored month as a structure with its figures calculated
      (`get_or_create_monthly_structure`). */
  function Load(w: World, year: string, month: string): (r: Option<Monthly>)
    ensures r.None? <==> RowKey(year, month) !in w.rows
    ensures r.Some? ==>
              var row := w.rows[RowKey(year, month)];
              r.value.employeeId == w.employee && r.value.year == year && r.value.month == ZFill(month, 2)
              && r.value.projectName == row.projectName && r.value.baseCalendar == row.baseCalendar
              && r.value.breakMinutes == row.breakMinutes && r.value.standardHours == row.standardHours
              && |r.value.days| == |row.days|
              && (forall i :: 0 <= i < |row.days| ==> SameInputs(r.value.days[i], row.days[i]))
              && HasSettings(r.value.days, row.breakMinutes, row.standardHours)
              && AllCalculated(r.value.days)
  {
    var key := RowKey(year, month);
    if key !in w.rows then None
    else
      var row := w.rows[key];
      Some(CalculateAll(Monthly(w.employee, key.year, key.month, row.projectName, row.baseCalendar,
                                row.breakMinutes, row.standardHours, row.days)))
  }

  /** `update_monthly_from_structure` on the row the month was loaded from,
      then `invalidate_monthly_cache` for that month. The approval flags of
      the row are kept. */
  function Commit(w: World, year: string, month: string, m: Monthly): (r: World)
    requires RowKey(year, month) in w.rows
    ensures r.employee == w.employee
    ensures r.rows.Keys == w.rows.Keys
    ensures forall k :: k in w.rows && k != RowKey(year, month) ==> r.rows[k] == w.rows[k]
    ensures var row := w.rows[RowKey(year, month)];
            r.rows[RowKey(year, month)] == MonthRow(m.projectName, m.baseCalendar, m.breakMinutes, m.standardHours,
                                                    row.isConfirmed, row.isRequired, m.days)
    ensures r.cache == Invalidate(w.cache, w.employee, year, month)
  {
    var key := RowKey(year, month);
    var row := w.rows[key];
    World(w.employee,
          w.rows[key := MonthRow(m.projectName, m.baseCalendar, m.breakMinutes, m.standardHours,
                                 row.isConfirmed, row.isRequired, m.days)],
          Invalidate(w.cache, w.employee, year, month))
  }
}
