/** `copy_prev_month`: start a month from the settings of the month before. */
module UtilityViews {
  import opened Wrappers
  import opened Strings
  import opened Calendar
  import opened Records
  import opened Store

  datatype CopyError =
    | NotANumber      // int() of the posted year or month raised ValueError
    | NoPrevious      // 前月の情報がありません。
    | AlreadyExists   // 今月の情報は既に存在します。

  datatype CopyReply = CopyFailed(error: CopyError) | Copied

  datatype CopyOutcome = CopyOutcome(reply: CopyReply, world: World)

  /** The month before (year, month), computed as the view does; for a real
      month it is the month one step back in the reference numbering. */
  function PrevMonth(year: int, month: int): (r: (int, int))
    ensures 1 <= month <= 12 ==> r == MonthAt(MonthIndex(year, month) - 1)
    ensures month != 1 ==> r.0 == year
  {
    if month == 1 then (year - 1, 12) else (year, month - 1)
  }

  /** The row of a numeric (year, month): `str(year)` and `f"{month:02d}"`. */
  function NumericKey(year: int, month: int): (k: MonthKey)
    ensures k == RowKey(IntToString(year), IntToString(month))
  {
    MonthKey(IntToString(year), FormatInt(month, 2))
  }

  /** A month number below 100 is stored as exactly two digits naming it, so
      distinct months never share a row. */
  lemma NumericKeyMonth(year: int, month: int)
    requires 0 <= month < 100
    ensures var k := NumericKey(year, month);
            |k.month| == 2 && AllDigits(k.month) && DigitsValue(k.month) == month
  {
    FormatNat(month, 2);
  }

  /** The settings row a copy creates: the previous month's four settings,
      neither flag set and no days. */
  function CopiedRow(prev: MonthRow): (r: MonthRow)
    ensures r.projectName == prev.projectName && r.baseCalendar == prev.baseCalendar
    ensures r.breakMinutes == prev.breakMinutes && r.standardHours == prev.standardHours
    ensures !r.isConfirmed && !r.isRequired && r.days == []
  {
    MonthRow(prev.projectName, prev.baseCalendar, prev.breakMinutes, prev.standardHours, false, false, [])
  }

  /** `copy_prev_month`. The cache is not touched. */
  function CopyPrevMonth(w: World, year: Option<int>, month: Option<int>): (r: CopyOutcome)
    ensures r.reply.CopyFailed? ==> r.world == w
    ensures r.world.employee == w.employee && r.world.cache == w.cache
    ensures year.None? || month.None? ==> r.reply == CopyFailed(NotANumber)
    ensures year.Some? && month.Some? ==>
              var p := PrevMonth(year.value, month.value);
              var prevKey := NumericKey(p.0, p.1);
              var key := NumericKey(year.value, month.value);
              && (r.reply == CopyFailed(NoPrevious) <==> prevKey !in w.rows)
              && (r.reply == CopyFailed(AlreadyExists) <==> prevKey in w.rows && key in w.rows)
              && (r.reply == Copied ==> r.world.rows == w.rows[key := CopiedRow(w.rows[prevKey])])
  {
    if year.None? || month.None? then CopyOutcome(CopyFailed(NotANumber), w)
    else
      var p := PrevMonth(year.value, month.value);
      var prevKey := NumericKey(p.0, p.1);
      var key := NumericKey(year.value, month.value);
      if prevKey !in w.rows then CopyOutcome(CopyFailed(NoPrevious), w)
      else if key in w.rows then CopyOutcome(CopyFailed(AlreadyExists), w)
      else CopyOutcome(Copied, w.(rows := w.rows[key := CopiedRow(w.rows[prevKey])]))
  }

  /** A copy never overwrites a stored month: every month stored before is
      stored unchanged afterwards, and at most one month is added. */
  lemma CopyNeverOverwrites(w: World, year: Option<int>, month: Option<int>)
    ensures var w2 := CopyPrevMonth(w, year, month).world;
            && (forall k :: k in w.rows ==> k in w2.rows && w2.rows[k] == w.rows[k])
            && |w2.rows.Keys - w.rows.Keys| <= 1
  {
    var w2 := CopyPrevMonth(w, year, month).world;
    if CopyPrevMonth(w, year, month).reply == Copied {
      var key := NumericKey(year.value, month.value);
      assert w2.rows.Keys - w.rows.Keys == {key};
    } else {
      assert w2.rows.Keys - w.rows.Keys == {};
    }
  }

  /** A January copy reads December of the year before, and the copied month
      then loads, under the month as the month views name it, as an empty month
      with December's settings. */
  lemma CopyIntoJanuary(w: World, year: int)
    requires NumericKey(year - 1, 12) in w.rows && NumericKey(year, 1) !in w.rows
    ensures CopyPrevMonth(w, Some(year), Some(1)).reply == Copied
    ensures var m := Load(CopyPrevMonth(w, Some(year), Some(1)).world, IntToString(year), "1");
            var dec := w.rows[NumericKey(year - 1, 12)];
            && m.Some? && m.value.days == [] && m.value.month == "01"
            && m.value.projectName == dec.projectName && m.value.baseCalendar == dec.baseCalendar
            && m.value.breakMinutes == dec.breakMinutes && m.value.standardHours == dec.standardHours
  {
    assert PrevMonth(year, 1) == (year - 1, 12);
    assert IntToString(1) == "1";
    assert IntToString(12) == "12";
  }
}
