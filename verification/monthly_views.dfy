/** The per-month views: changing a month's settings
    (`MonthlyAttendanceUpdateView`), deleting a month
    (`MonthlyAttendanceDeleteView`) and creating one
    (`MonthlyAttendanceCreateView.form_valid`). */
module MonthlyViews {
  import opened Wrappers
  import opened Strings
  import opened Records
  import opened DailyCalc
  import opened MonthlyAgg
  import opened Cache
  import opened Store

  datatype MonthError =
    | NoYearMonth    // 年月情報が不足しています
    | NoMonthData    // 該当する月別勤怠情報が見つかりません
    | BadNumber      // int()/float() of a sent setting raised ValueError
    | Duplicate      // the (employee, year, month) constraint refused the row

  datatype MonthReply = MonthFailed(error: MonthError) | MonthDone

  datatype MonthOutcome = MonthOutcome(reply: MonthReply, world: World)

  /** Python truthiness of an optional text field: missing, null and "" are false. */
  predicate Truthy(s: Option<string>)
  {
    s.Some? && s.value != ""
  }

  /** The JSON body of a settings update. A setting is `None` when its key is
      absent; a number is `Some(None)` when `int()`/`float()` rejects it. */
  datatype SettingsRequest = SettingsRequest(
    year: Option<string>,
    month: Option<string>,
    projectName: Option<string>,
    baseCalendar: Option<string>,
    breakMinutes: Option<Option<int>>,
    standardHours: Option<Option<real>>)

  /** A sent value, or the old one when the key is absent. */
  function Keep<T>(sent: Option<T>, current: T): T
  {
    if sent.Some? then sent.value else current
  }

  /** `MonthlyAttendanceUpdateView.post`: the settings are replaced field by
      field, copied onto every day and every day is recalculated; the month is
      saved and its cache entry dropped. */
  function UpdateSettings(w: World, req: SettingsRequest): (r: MonthOutcome)
    ensures r.reply.MonthFailed? ==> r.world == w
    ensures r.world.employee == w.employee && r.world.rows.Keys == w.rows.Keys
    ensures !Truthy(req.year) || !Truthy(req.month) ==> r.reply == MonthFailed(NoYearMonth)
    ensures Truthy(req.year) && Truthy(req.month) && RowKey(req.year.value, req.month.value) !in w.rows
            ==> r.reply == MonthFailed(NoMonthData)
  {
    if !Truthy(req.year) || !Truthy(req.month) then MonthOutcome(MonthFailed(NoYearMonth), w)
    else
      var loaded := Load(w, req.year.value, req.month.value);
      if loaded.None? then MonthOutcome(MonthFailed(NoMonthData), w)
      else if req.breakMinutes == Some(None) || req.standardHours == Some(None) then MonthOutcome(MonthFailed(BadNumber), w)
      else
        var m := loaded.value;
        var brk := Keep(if req.breakMinutes.Some? then req.breakMinutes.value else None, m.breakMinutes);
        var std := Keep(if req.standardHours.Some? then req.standardHours.value else None, m.standardHours);
        var m' := m.(projectName := Keep(req.projectName, m.projectName),
                     baseCalendar := Keep(req.baseCalendar, m.baseCalendar),
                     breakMinutes := brk,
                     standardHours := std,
                     days := Recompute(m.days, brk, std));
        MonthOutcome(MonthDone, Commit(w, req.year.value, req.month.value, m'))
  }

  /** A settings update of a stored month keeps every day's inputs, gives every
      day the new settings with fresh figures, keeps the settings that were not
      sent, leaves other months alone and drops the month's cache entry. */
  lemma UpdateSettingsEffect(w: World, req: SettingsRequest)
    requires Truthy(req.year) && Truthy(req.month)
    requires RowKey(req.year.value, req.month.value) in w.rows
    requires req.breakMinutes != Some(None) && req.standardHours != Some(None)
    ensures UpdateSettings(w, req).reply == MonthDone
    ensures var before := w.rows[RowKey(req.year.value, req.month.value)];
            var after := UpdateSettings(w, req).world.rows[RowKey(req.year.value, req.month.value)];
            && after.projectName == Keep(req.projectName, before.projectName)
            && after.baseCalendar == Keep(req.baseCalendar, before.baseCalendar)
            && after.breakMinutes == (if req.breakMinutes.Some? then req.breakMinutes.value.value else before.breakMinutes)
            && after.standardHours == (if req.standardHours.Some? then req.standardHours.value.value else before.standardHours)
            && after.isConfirmed == before.isConfirmed && after.isRequired == before.isRequired
            && |after.days| == |before.days|
            && (forall i :: 0 <= i < |after.days| ==> SameInputs(after.days[i], before.days[i]))
            && HasSettings(after.days, after.breakMinutes, after.standardHours)
            && AllCalculated(after.days)
    ensures forall k :: k in w.rows && k != RowKey(req.year.value, req.month.value) ==> UpdateSettings(w, req).world.rows[k] == w.rows[k]
    ensures UpdateSettings(w, req).world.cache == Invalidate(w.cache, w.employee, req.year.value, req.month.value)
  {
  }

  /** Sending the settings a month already has changes no stored input: the
      same update twice leaves the same month as once. */
  lemma UpdateSettingsIdempotent(w: World, req: SettingsRequest)
    requires Truthy(req.year) && Truthy(req.month)
    requires RowKey(req.year.value, req.month.value) in w.rows
    requires req.breakMinutes != Some(None) && req.standardHours != Some(None)
    ensures var once := UpdateSettings(w, req).world;
            var twice := UpdateSettings(once, req).world;
            twice.rows == once.rows && twice.cache == once.cache
  {
    var key := RowKey(req.year.value, req.month.value);
    UpdateSettingsEffect(w, req);
    var once := UpdateSettings(w, req).world;
    UpdateSettingsEffect(once, req);
    var twice := UpdateSettings(once, req).world;
    var a := once.rows[key];
    var b := twice.rows[key];
    assert b.days == a.days by {
      assert forall i :: 0 <= i < |a.days| ==> b.days[i] == a.days[i] by {
        forall i | 0 <= i < |a.days|
          ensures b.days[i] == a.days[i]
        {
          CalculatedSettledDay(a.days[i], b.days[i]);
        }
      }
    }
    assert b == a;
  }

  /** Two calculated records with the same inputs and settings are equal. */
  lemma CalculatedSettledDay(a: Daily, b: Daily)
    requires IsCalculated(a) && IsCalculated(b) && SameInputs(a, b)
    requires a.breakMinutes == b.breakMinutes && a.standardHours == b.standardHours
    ensures a == b
  {
  }

  /** `MonthlyAttendanceDeleteView.post`: the month's row goes with all its
      days, and its cache entry is dropped. */
  function DeleteMonth(w: World, year: Option<string>, month: Option<string>): (r: MonthOutcome)
    ensures r.reply.MonthFailed? ==> r.world == w
    ensures r.world.employee == w.employee
    ensures !Truthy(year) || !Truthy(month) ==> r.reply == MonthFailed(NoYearMonth)
    ensures r.reply == MonthDone <==> Truthy(year) && Truthy(month) && RowKey(year.value, month.value) in w.rows
    ensures r.reply == MonthDone ==>
              && r.world.rows == w.rows - {RowKey(year.value, month.value)}
              && r.world.cache == Invalidate(w.cache, w.employee, year.value, month.value)
  {
    if !Truthy(year) || !Truthy(month) then MonthOutcome(MonthFailed(NoYearMonth), w)
    else if Load(w, year.value, month.value).None? then MonthOutcome(MonthFailed(NoMonthData), w)
    else
      var key := RowKey(year.value, month.value);
      MonthOutcome(MonthDone, World(w.employee, w.rows - {key}, Invalidate(w.cache, w.employee, year.value, month.value)))
  }

  /** After a month is deleted neither the store nor the cache has it. */
  lemma DeleteMonthForgets(w: World, year: string, month: string, rd: TimeReader)
    requires year != "" && month != "" && RowKey(year, month) in w.rows
    ensures var w2 := DeleteMonth(w, Some(year), Some(month)).world;
            && Load(w2, year, month).None?
            && GetWith(w2.cache, w.employee, year, month, rd).value.None?
  {
    InvalidateThenGet(w.cache, w.employee, year, month, rd);
  }

  /** The form data of a new month: the year and month posted alongside the
      form, and the four validated settings. */
  datatype CreateRequest = CreateRequest(
    year: Option<string>,
    month: Option<string>,
    projectName: string,
    baseCalendar: string,
    breakMinutes: nat,
    standardHours: real)

  /** The row a creation writes: the posted month zero-padded, or the model's
      empty defaults when either field is missing. */
  function NewMonthKey(req: CreateRequest): (k: MonthKey)
    ensures Truthy(req.year) && Truthy(req.month) ==> k == RowKey(req.year.value, req.month.value) && |k.month| >= 2
  {
    if Truthy(req.year) && Truthy(req.month) then MonthKey(req.year.value, ZFill(req.month.value, 2))
    else MonthKey("", "")
  }

  /** `MonthlyAttendanceCreateView.form_valid`: a new month with no days and
      neither flag set; a second month with the same key is refused. */
  function CreateMonth(w: World, req: CreateRequest): (r: MonthOutcome)
    ensures r.world.employee == w.employee && r.world.cache == w.cache
    ensures r.reply == MonthFailed(Duplicate) <==> NewMonthKey(req) in w.rows
    ensures r.reply.MonthFailed? ==> r.world == w
    ensures r.reply == MonthDone ==>
              r.world.rows == w.rows[NewMonthKey(req) := MonthRow(req.projectName, req.baseCalendar, req.breakMinutes, req.standardHours, false, false, [])]
  {
    var key := NewMonthKey(req);
    if key in w.rows then MonthOutcome(MonthFailed(Duplicate), w)
    else MonthOutcome(MonthDone, w.(rows := w.rows[key := MonthRow(req.projectName, req.baseCalendar, req.breakMinutes, req.standardHours, false, false, [])]))
  }

  /** A created month loads, under its month written with or without the
      leading zero, as an empty month with the posted settings. */
  lemma CreateThenLoad(w: World, req: CreateRequest)
    requires Truthy(req.year) && Truthy(req.month) && RowKey(req.year.value, req.month.value) !in w.rows
    ensures CreateMonth(w, req).reply == MonthDone
    ensures var m := Load(CreateMonth(w, req).world, req.year.value, ZFill(req.month.value, 2));
            && m.Some? && m.value.days == []
            && m.value.projectName == req.projectName && m.value.baseCalendar == req.baseCalendar
            && m.value.breakMinutes == req.breakMinutes && m.value.standardHours == req.standardHours
  {
    ZFillIdempotent(req.month.value, 2);
  }

  /** Creating a month and deleting it again restores the stored months. */
  lemma CreateThenDeleteMonth(w: World, req: CreateRequest)
    requires Truthy(req.year) && Truthy(req.month) && RowKey(req.year.value, req.month.value) !in w.rows
    ensures var w1 := CreateMonth(w, req).world;
            && DeleteMonth(w1, req.year, req.month).reply == MonthDone
            && DeleteMonth(w1, req.year, req.month).world.rows == w.rows
  {
    var key := RowKey(req.year.value, req.month.value);
    var w1 := CreateMonth(w, req).world;
    assert w1.rows - {key} == w.rows;
  }
}
