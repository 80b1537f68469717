/** The per-day views: entering or correcting a day (`DailyDataUpdateView`),
    reading it back (`DailyDataGetView`), deleting it
    (`DailyAttendanceDeleteView`) and asking for its approval
    (`DailyApproveView`, `attendance_require_day`). */
module DailyViews {
  import opened Wrappers
  import opened Strings
  import opened Calendar
  import opened Records
  import opened DailyCalc
  import opened MonthlyAgg
  import opened Cache
  import opened Iso
  import opened Store

  /** A request field: missing, null or empty (all falsy in Python), or given,
      with the value it parses to (`None` when the parse fails). */
  datatype Text<T> = Blank | Given(parsed: Option<T>)

  function Parsed<T>(t: Text<T>): Option<T>
  {
    if t.Given? then t.parsed else None
  }

  datatype DayError =
    | NoDay          // 日付が指定されていません
    | NoYearMonth    // 年月情報が不足しています
    | InvalidDate    // 無効な日付です / 無効な日付形式です
    | NoMonthData    // 該当する月別勤怠情報が見つかりません
    | NoWorkType     // 勤務区分を選択してください
    | NoStart        // 作業開始時刻を入力してください
    | NoEnd          // 作業終了時刻を入力してください
    | Locked         // 承認申請中または承認済みのため、修正できません
    | NoRecord       // 該当する日別勤怠情報が見つかりません
    | AlreadyRequested  // すでに承認申請中です
    | NotPost        // Invalid request

  datatype Reply = Failed(error: DayError) | Updated | Created | Deleted | Requested

  /** A view's reply and the state it leaves behind. */
  datatype Outcome = Outcome(reply: Reply, world: World)

  /** The JSON body of a day update. `notes` is `None` when the key is absent
      and `Some(None)` when it is null. */
  datatype UpdateRequest = UpdateRequest(
    day: Text<int>,
    year: Text<int>,
    month: Text<int>,
    workType: Option<WorkType>,
    start: Text<TimeOfDay>,
    end: Text<TimeOfDay>,
    altDate: Text<CivilDate>,
    notes: Option<Option<string>>)

  /** The strings the views pass for a date's month: `str(year)`, `str(month)`. */
  function YearText(d: CivilDate): string { IntToString(d.year) }
  function MonthText(d: CivilDate): string { IntToString(d.month) }

  /** The stored row a date belongs to. */
  function RowOf(d: CivilDate): MonthKey
  {
    RowKey(YearText(d), MonthText(d))
  }

  /** `date(int(year), int(month), int(day))`: fails when a field does not
      parse or the three do not form a date. */
  function RequestDate(day: Option<int>, year: Option<int>, month: Option<int>): (r: Option<CivilDate>)
    ensures r.Some? <==> day.Some? && year.Some? && month.Some? && ValidDate(year.value, month.value, day.value)
    ensures r.Some? ==> r.value == Date(year.value, month.value, day.value)
  {
    if day.Some? && year.Some? && month.Some? && ValidDate(year.value, month.value, day.value)
    then Some(Date(year.value, month.value, day.value))
    else None
  }

  /** An existing record after an edit: the type and both times are replaced,
      the substitute date only when one parsed, the notes only when the key
      was sent; then the figures are recalculated. */
  function Edited(d: Daily, req: UpdateRequest): (r: Daily)
    ensures r.date == d.date && r.workType == req.workType
    ensures r.start == Parsed(req.start) && r.end == Parsed(req.end)
    ensures r.altDate == (if Parsed(req.altDate).Some? then Parsed(req.altDate) else d.altDate)
    ensures r.notes == (if req.notes.Some? then req.notes.value else d.notes)
    ensures r.isRequired == d.isRequired && r.isConfirmed == d.isConfirmed
    ensures r.breakMinutes == d.breakMinutes && r.standardHours == d.standardHours
    ensures IsCalculated(r)
  {
    var alt := Parsed(req.altDate);
    Calculate(d.(workType := req.workType,
                 start := Parsed(req.start),
                 end := Parsed(req.end),
                 altDate := if alt.Some? then alt else d.altDate,
                 notes := if req.notes.Some? then req.notes.value else d.notes))
  }

  /** A new record: notes default to "", flags are clear, the month's
      settings are copied, and the figures are calculated. */
  function Fresh(date: CivilDate, req: UpdateRequest, m: Monthly): (r: Daily)
    ensures r.date == date && r.workType == req.workType
    ensures r.start == Parsed(req.start) && r.end == Parsed(req.end) && r.altDate == Parsed(req.altDate)
    ensures r.notes == (if req.notes.Some? then req.notes.value else Some(""))
    ensures !r.isRequired && !r.isConfirmed
    ensures r.breakMinutes == m.breakMinutes && r.standardHours == m.standardHours
    ensures IsCalculated(r)
  {
    Calculate(Daily(date, req.workType, Parsed(req.start), Parsed(req.end), Parsed(req.altDate),
                    if req.notes.Some? then req.notes.value else Some(""),
                    false, false, m.breakMinutes, m.standardHours, NoHours))
  }

  /** Whether a record is waiting for or has received approval. */
  predicate IsLocked(d: Daily)
  {
    d.isRequired || d.isConfirmed
  }

  /** `DailyDataUpdateView.post`. */
  function UpdateDay(w: World, req: UpdateRequest): (r: Outcome)
    ensures r.reply.Failed? || r.reply.Updated? || r.reply.Created?
    ensures r.reply.Failed? ==> r.world == w
    ensures r.world.employee == w.employee && r.world.rows.Keys == w.rows.Keys
    ensures req.day.Blank? ==> r.reply == Failed(NoDay)
    ensures !req.day.Blank? && (req.year.Blank? || req.month.Blank?) ==> r.reply == Failed(NoYearMonth)
    ensures var date := RequestDate(Parsed(req.day), Parsed(req.year), Parsed(req.month));
            !req.day.Blank? && !req.year.Blank? && !req.month.Blank? ==>
              && (date.None? ==> r.reply == Failed(InvalidDate))
              && (date.Some? && RowOf(date.value) !in w.rows ==> r.reply == Failed(NoMonthData))
              && (date.Some? && RowOf(date.value) in w.rows ==>
                    && (req.workType.None? ==> r.reply == Failed(NoWorkType))
                    && (req.workType.Some? && req.start.Blank? ==> r.reply == Failed(NoStart))
                    && (req.workType.Some? && !req.start.Blank? && req.end.Blank? ==> r.reply == Failed(NoEnd)))
    ensures r.reply.Failed? && r.reply.error == Locked ==> req.workType.Some? && !req.start.Blank? && !req.end.Blank?
    ensures !r.reply.Failed? ==>
              var date := RequestDate(Parsed(req.day), Parsed(req.year), Parsed(req.month));
              date.Some? && Complete(w, req, date.value)
  {
    if req.day.Blank? then Outcome(Failed(NoDay), w)
    else if req.year.Blank? || req.month.Blank? then Outcome(Failed(NoYearMonth), w)
    else
      var date := RequestDate(req.day.parsed, req.year.parsed, req.month.parsed);
      if date.None? then Outcome(Failed(InvalidDate), w)
      else
        var d := date.value;
        var loaded := Load(w, YearText(d), MonthText(d));
        if loaded.None? then Outcome(Failed(NoMonthData), w)
        else if req.workType.None? then Outcome(Failed(NoWorkType), w)
        else if req.start.Blank? then Outcome(Failed(NoStart), w)
        else if req.end.Blank? then Outcome(Failed(NoEnd), w)
        else
          var m := loaded.value;
          var i := FirstIndexOf(m.days, d);
          if i.Some? && IsLocked(m.days[i.value]) then Outcome(Failed(Locked), w)
          else
            Outcome(if i.Some? then Updated else Created,
                    Commit(w, YearText(d), MonthText(d), m.(days := Upsert(m, d, req))))
  }

  /** The month's records after an edit of day `d`: the first record with
      that date is edited in place, or a new record is appended. */
  function Upsert(m: Monthly, d: CivilDate, req: UpdateRequest): (r: seq<Daily>)
    ensures |r| == |m.days| + (if HasDate(m.days, d) then 0 else 1)
  {
    var i := FirstIndexOf(m.days, d);
    if i.Some? then m.days[i.value := Edited(m.days[i.value], req)] else m.days + [Fresh(d, req, m)]
  }

  /** A stored month loads with its records in place, so a date is found at
      the same index in the loaded and the stored list. */
  lemma LoadedIndex(w: World, d: CivilDate)
    requires RowOf(d) in w.rows
    ensures Load(w, YearText(d), MonthText(d)).Some?
    ensures FirstIndexOf(Load(w, YearText(d), MonthText(d)).value.days, d) == FirstIndexOf(w.rows[RowOf(d)].days, d)
  {
    SameDatesSameIndex(Load(w, YearText(d), MonthText(d)).value.days, w.rows[RowOf(d)].days, d);
  }

  /** What a successful edit of a stored month's day writes back. */
  lemma UpdateDayWrites(w: World, req: UpdateRequest, d: CivilDate)
    requires Complete(w, req, d)
    requires !UpdateDay(w, req).reply.Failed?
    ensures Load(w, YearText(d), MonthText(d)).Some?
    ensures UpdateDay(w, req).world.rows[RowOf(d)].days == Upsert(Load(w, YearText(d), MonthText(d)).value, d, req)
    ensures forall k :: k in w.rows && k != RowOf(d) ==> UpdateDay(w, req).world.rows[k] == w.rows[k]
    ensures UpdateDay(w, req).world.cache == Invalidate(w.cache, w.employee, YearText(d), MonthText(d))
    ensures UpdateDay(w, req).reply == (if HasDate(w.rows[RowOf(d)].days, d) then Updated else Created)
  {
    LoadedIndex(w, d);
  }

  /** The requests `UpdateDay` gets past its checks with: a date in a stored
      month, a work type and both times. */
  predicate Complete(w: World, req: UpdateRequest, d: CivilDate)
  {
    req.day == Given(Some(d.day)) && req.year == Given(Some(d.year)) && req.month == Given(Some(d.month))
    && RowOf(d) in w.rows && req.workType.Some? && !req.start.Blank? && !req.end.Blank?
  }

  /** An edit is refused, and nothing changes, exactly when the day's record
      is already requested or approved. */
  lemma UpdateRefusedWhenLocked(w: World, req: UpdateRequest, d: CivilDate)
    requires Complete(w, req, d)
    ensures var found := FindFirst(w.rows[RowOf(d)].days, d);
            UpdateDay(w, req).reply == Failed(Locked) <==> found.Some? && IsLocked(found.value)
    ensures UpdateDay(w, req).reply.Failed? ==> UpdateDay(w, req).reply == Failed(Locked)
  {
    LoadedIndex(w, d);
  }

  /** Two lists whose records pair up with the same inputs locate a date at
      the same index. */
  lemma {:induction false} SameDatesSameIndex(a: seq<Daily>, b: seq<Daily>, d: CivilDate)
    requires |a| == |b| && forall i :: 0 <= i < |a| ==> SameInputs(a[i], b[i])
    ensures FirstIndexOf(a, d) == FirstIndexOf(b, d)
  {
    if |a| > 0 && a[0].date != d {
      SameDatesSameIndex(a[1..], b[1..], d);
    }
  }

  /** Editing a list whose records pair up with `before`'s: records of other
      dates keep their inputs, the day carries the requested entries, and
      unique dates stay unique. */
  lemma UpsertEffect(m: Monthly, before: seq<Daily>, d: CivilDate, req: UpdateRequest)
    requires |m.days| == |before| && forall i :: 0 <= i < |before| ==> SameInputs(m.days[i], before[i])
    ensures var after := Upsert(m, d, req);
            && (forall j :: 0 <= j < |before| && before[j].date != d ==> SameInputs(after[j], before[j]))
            && FindFirst(after, d).Some?
            && FindFirst(after, d).value.workType == req.workType
            && FindFirst(after, d).value.start == Parsed(req.start)
            && FindFirst(after, d).value.end == Parsed(req.end)
            && (UniqueDates(before) ==> UniqueDates(after))
  {
    SameDatesSameIndex(m.days, before, d);
    var after := Upsert(m, d, req);
    var i := FirstIndexOf(m.days, d);
    if i.Some? {
      assert forall j :: 0 <= j < i.value ==> after[j].date == before[j].date;
      FirstIndexOfFrom(after, d, i.value);
    } else {
      assert forall j :: 0 <= j < |before| ==> after[j].date != d;
      FirstIndexOfFrom(after, d, |before|);
    }
  }

  /** A successful edit leaves the day with exactly the requested entries,
      touches no other record, keeps dates unique, and drops the month's
      cache entry. */
  lemma UpdateDayEffect(w: World, req: UpdateRequest, d: CivilDate)
    requires Complete(w, req, d)
    requires !UpdateDay(w, req).reply.Failed?
    ensures var before := w.rows[RowOf(d)].days;
            var after := UpdateDay(w, req).world.rows[RowOf(d)].days;
            && (UpdateDay(w, req).reply == Created <==> !HasDate(before, d))
            && |after| == |before| + (if HasDate(before, d) then 0 else 1)
            && (forall j :: 0 <= j < |before| && before[j].date != d ==> SameInputs(after[j], before[j]))
            && FindFirst(after, d).Some?
            && FindFirst(after, d).value.workType == req.workType
            && FindFirst(after, d).value.start == Parsed(req.start)
            && FindFirst(after, d).value.end == Parsed(req.end)
            && (UniqueDates(before) ==> UniqueDates(after))
    ensures forall k :: k in w.rows && k != RowOf(d) ==> UpdateDay(w, req).world.rows[k] == w.rows[k]
    ensures UpdateDay(w, req).world.cache == Invalidate(w.cache, w.employee, YearText(d), MonthText(d))
  {
    UpdateDayWrites(w, req, d);
    UpsertEffect(Load(w, YearText(d), MonthText(d)).value, w.rows[RowOf(d)].days, d, req);
  }

  /** A list whose records before index `k` miss `d` and whose record `k`
      has it finds `d` at `k`. */
  lemma {:induction false} FirstIndexOfFrom(days: seq<Daily>, d: CivilDate, k: nat)
    requires k < |days| && days[k].date == d
    requires forall j :: 0 <= j < k ==> days[j].date != d
    ensures FirstIndexOf(days, d) == Some(k)
  {
    if k > 0 {
      FirstIndexOfFrom(days[1..], d, k - 1);
    }
  }

  /** The list without its record at index `i` (`list.remove` of that record). */
  function RemoveAt(days: seq<Daily>, i: nat): (r: seq<Daily>)
    requires i < |days|
    ensures |r| == |days| - 1
    ensures forall j :: 0 <= j < i ==> r[j] == days[j]
    ensures forall j :: i <= j < |r| ==> r[j] == days[j + 1]
  {
    days[..i] + days[i + 1..]
  }

  /** `DailyAttendanceDeleteView.post`: the first record with the date is
      removed; approval state is not consulted. */
  function DeleteDay(w: World, date: Text<CivilDate>): (r: Outcome)
    ensures r.reply.Failed? || r.reply.Deleted?
    ensures r.reply.Failed? ==> r.world == w
    ensures r.world.employee == w.employee && r.world.rows.Keys == w.rows.Keys
    ensures date.Blank? ==> r.reply == Failed(NoDay)
    ensures date == Given(None) ==> r.reply == Failed(InvalidDate)
    ensures date.Given? && date.parsed.Some? ==>
              var d := date.parsed.value;
              && (RowOf(d) !in w.rows ==> r.reply == Failed(NoMonthData))
              && (RowOf(d) in w.rows && !HasDate(w.rows[RowOf(d)].days, d) ==> r.reply == Failed(NoRecord))
              && (r.reply == Deleted <==> RowOf(d) in w.rows && HasDate(w.rows[RowOf(d)].days, d))
  {
    if date.Blank? then Outcome(Failed(NoDay), w)
    else if date.parsed.None? then Outcome(Failed(InvalidDate), w)
    else DeleteDate(w, date.parsed.value)
  }

  /** The deletion once the date has parsed: a month that is not stored, or
      holds no record of the date, is refused. */
  function DeleteDate(w: World, d: CivilDate): (r: Outcome)
    ensures r.reply.Failed? || r.reply.Deleted?
    ensures r.reply.Failed? ==> r.world == w
    ensures r.world.employee == w.employee && r.world.rows.Keys == w.rows.Keys
    ensures RowOf(d) !in w.rows ==> r.reply == Failed(NoMonthData)
    ensures RowOf(d) in w.rows && !HasDate(w.rows[RowOf(d)].days, d) ==> r.reply == Failed(NoRecord)
    ensures r.reply == Deleted <==> RowOf(d) in w.rows && HasDate(w.rows[RowOf(d)].days, d)
  {
    var loaded := Load(w, YearText(d), MonthText(d));
    if loaded.None? then Outcome(Failed(NoMonthData), w)
    else
      LoadedIndex(w, d);
      var m := loaded.value;
      var i := FirstIndexOf(m.days, d);
      if i.None? then Outcome(Failed(NoRecord), w)
      else Outcome(Deleted, Commit(w, YearText(d), MonthText(d), m.(days := RemoveAt(m.days, i.value))))
  }

  /** What deleting a stored day writes back. */
  lemma DeleteDayWrites(w: World, d: CivilDate, i: nat)
    requires RowOf(d) in w.rows && FirstIndexOf(w.rows[RowOf(d)].days, d) == Some(i)
    ensures Load(w, YearText(d), MonthText(d)).Some?
    ensures DeleteDate(w, d).reply == Deleted
    ensures DeleteDate(w, d).world.rows[RowOf(d)].days
            == RemoveAt(Load(w, YearText(d), MonthText(d)).value.days, i)
    ensures forall k :: k in w.rows && k != RowOf(d) ==> DeleteDate(w, d).world.rows[k] == w.rows[k]
    ensures DeleteDate(w, d).world.cache == Invalidate(w.cache, w.employee, YearText(d), MonthText(d))
  {
    LoadedIndex(w, d);
  }

  /** Removing the first record of a date from a list whose dates are unique
      leaves no record of that date and keeps the dates unique. */
  lemma RemoveFirstEffect(days: seq<Daily>, d: CivilDate)
    requires UniqueDates(days) && HasDate(days, d)
    ensures var after := RemoveAt(days, FirstIndexOf(days, d).value);
            UniqueDates(after) && !HasDate(after, d)
  {
    var i := FirstIndexOf(days, d).value;
    var after := RemoveAt(days, i);
    assert forall j :: 0 <= j < |after| ==> after[j].date != d by {
      forall j | 0 <= j < |after|
        ensures after[j].date != d
      {
        if j >= i {
          assert after[j] == days[j + 1];
        }
      }
    }
  }

  /** Deleting a stored day removes that one record and keeps every other
      record's inputs; with unique dates the day is gone afterwards. */
  lemma DeleteDayEffect(w: World, d: CivilDate, i: nat)
    requires RowOf(d) in w.rows && FirstIndexOf(w.rows[RowOf(d)].days, d) == Some(i)
    ensures DeleteDate(w, d).reply == Deleted
    ensures var before := w.rows[RowOf(d)].days;
            var after := DeleteDate(w, d).world.rows[RowOf(d)].days;
            && |after| == |before| - 1
            && (forall j :: 0 <= j < i ==> SameInputs(after[j], before[j]))
            && (forall j :: i < j < |before| ==> SameInputs(after[j - 1], before[j]))
            && (UniqueDates(before) ==> UniqueDates(after) && !HasDate(after, d))
  {
    DeleteDayWrites(w, d, i);
    var before := w.rows[RowOf(d)].days;
    var m := Load(w, YearText(d), MonthText(d)).value;
    if UniqueDates(before) {
      assert UniqueDates(m.days);
      RemoveFirstEffect(m.days, d);
    }
  }

  /** Entering a day the month did not hold and deleting it again restores
      the month's records (their inputs and order). */
  lemma CreateThenDelete(w: World, req: UpdateRequest, d: CivilDate)
    requires Complete(w, req, d) && !HasDate(w.rows[RowOf(d)].days, d)
    ensures UpdateDay(w, req).reply == Created
    ensures var w2 := DeleteDate(UpdateDay(w, req).world, d).world;
            var before := w.rows[RowOf(d)].days;
            var after := w2.rows[RowOf(d)].days;
            && DeleteDate(UpdateDay(w, req).world, d).reply == Deleted
            && |after| == |before|
            && (forall j :: 0 <= j < |before| ==> SameInputs(after[j], before[j]))
  {
    LoadedIndex(w, d);
    var m := Load(w, YearText(d), MonthText(d)).value;
    assert !UpdateDay(w, req).reply.Failed?;
    UpdateDayWrites(w, req, d);
    var w1 := UpdateDay(w, req).world;
    var mid := w1.rows[RowOf(d)].days;
    assert mid == m.days + [Fresh(d, req, m)];
    assert FirstIndexOf(mid, d) == Some(|mid| - 1) by {
      FirstIndexOfFrom(mid, d, |mid| - 1);
    }
    DeleteDayEffect(w1, d, |mid| - 1);
  }

  /** The list with its record `i` marked as requested. */
  function Flagged(days: seq<Daily>, i: nat): (r: seq<Daily>)
    requires i < |days|
    ensures |r| == |days| && r[i].isRequired
    ensures forall j :: 0 <= j < |days| && j != i ==> r[j] == days[j]
  {
    days[i := days[i].(isRequired := true)]
  }

  /** `DailyApproveView.post`: marks the day's record as requested; refused
      when it already is. The approved flag is not consulted. */
  function ApproveDay(w: World, date: Text<CivilDate>): (r: Outcome)
    ensures r.reply.Failed? || r.reply.Requested?
    ensures r.reply.Failed? ==> r.world == w
    ensures r.world.employee == w.employee && r.world.rows.Keys == w.rows.Keys
    ensures date.Blank? ==> r.reply == Failed(NoDay)
    ensures date == Given(None) ==> r.reply == Failed(InvalidDate)
    ensures date.Given? && date.parsed.Some? ==>
              var d := date.parsed.value;
              && (RowOf(d) !in w.rows ==> r.reply == Failed(NoMonthData))
              && (RowOf(d) in w.rows && !HasDate(w.rows[RowOf(d)].days, d) ==> r.reply == Failed(NoRecord))
              && (RowOf(d) in w.rows && HasDate(w.rows[RowOf(d)].days, d) ==>
                    var found := FindFirst(w.rows[RowOf(d)].days, d).value;
                    (found.isRequired ==> r.reply == Failed(AlreadyRequested))
                    && (!found.isRequired ==> r.reply == Requested))
  {
    if date.Blank? then Outcome(Failed(NoDay), w)
    else if date.parsed.None? then Outcome(Failed(InvalidDate), w)
    else ApproveDate(w, date.parsed.value)
  }

  /** The approval request once the date has parsed: refused for a month
      that is not stored, a date without a record, and a record already
      requested. */
  function ApproveDate(w: World, d: CivilDate): (r: Outcome)
    ensures r.reply.Failed? || r.reply.Requested?
    ensures r.reply.Failed? ==> r.world == w
    ensures r.world.employee == w.employee && r.world.rows.Keys == w.rows.Keys
    ensures RowOf(d) !in w.rows ==> r.reply == Failed(NoMonthData)
    ensures RowOf(d) in w.rows && !HasDate(w.rows[RowOf(d)].days, d) ==> r.reply == Failed(NoRecord)
    ensures RowOf(d) in w.rows && HasDate(w.rows[RowOf(d)].days, d) ==>
              var found := FindFirst(w.rows[RowOf(d)].days, d).value;
              (found.isRequired ==> r.reply == Failed(AlreadyRequested))
              && (!found.isRequired ==> r.reply == Requested)
  {
    var loaded := Load(w, YearText(d), MonthText(d));
    if loaded.None? then Outcome(Failed(NoMonthData), w)
    else
      LoadedIndex(w, d);
      var m := loaded.value;
      var i := FirstIndexOf(m.days, d);
      if i.None? then Outcome(Failed(NoRecord), w)
      else if m.days[i.value].isRequired then Outcome(Failed(AlreadyRequested), w)
      else Outcome(Requested, Commit(w, YearText(d), MonthText(d), m.(days := Flagged(m.days, i.value))))
  }

  /** What a first approval request for a stored day writes back. */
  lemma ApproveDayWrites(w: World, d: CivilDate, i: nat)
    requires RowOf(d) in w.rows && FirstIndexOf(w.rows[RowOf(d)].days, d) == Some(i)
    requires !w.rows[RowOf(d)].days[i].isRequired
    ensures Load(w, YearText(d), MonthText(d)).Some?
    ensures ApproveDate(w, d).reply == Requested
    ensures ApproveDate(w, d).world.rows[RowOf(d)].days
            == Flagged(Load(w, YearText(d), MonthText(d)).value.days, i)
    ensures forall k :: k in w.rows && k != RowOf(d) ==> ApproveDate(w, d).world.rows[k] == w.rows[k]
    ensures ApproveDate(w, d).world.cache == Invalidate(w.cache, w.employee, YearText(d), MonthText(d))
  {
    LoadedIndex(w, d);
  }

  /** Requesting approval sets the flag on that record alone, a second request
      is refused, and the day can no longer be edited. */
  lemma ApproveLocksDay(w: World, req: UpdateRequest, d: CivilDate, i: nat)
    requires Complete(w, req, d)
    requires FirstIndexOf(w.rows[RowOf(d)].days, d) == Some(i) && !w.rows[RowOf(d)].days[i].isRequired
    ensures ApproveDate(w, d).reply == Requested
    ensures var before := w.rows[RowOf(d)].days;
            var after := ApproveDate(w, d).world.rows[RowOf(d)].days;
            && |after| == |before|
            && after[i].isRequired
            && (forall j :: 0 <= j < |before| && j != i ==> SameInputs(after[j], before[j]))
    ensures ApproveDate(ApproveDate(w, d).world, d).reply == Failed(AlreadyRequested)
    ensures UpdateDay(ApproveDate(w, d).world, req).reply == Failed(Locked)
  {
    ApproveDayWrites(w, d, i);
    var m := Load(w, YearText(d), MonthText(d)).value;
    var w1 := ApproveDate(w, d).world;
    var after := w1.rows[RowOf(d)].days;
    assert after == Flagged(m.days, i);
    assert FirstIndexOf(after, d) == Some(i) by {
      FirstIndexOfFrom(after, d, i);
    }
    assert Complete(w1, req, d);
    RequestedDayLocked(w1, req, d, i);
  }

  /** A month whose first record of a date is requested refuses a second
      request and any edit of that date. */
  lemma RequestedDayLocked(w: World, req: UpdateRequest, d: CivilDate, i: nat)
    requires Complete(w, req, d)
    requires FirstIndexOf(w.rows[RowOf(d)].days, d) == Some(i) && w.rows[RowOf(d)].days[i].isRequired
    ensures ApproveDate(w, d).reply == Failed(AlreadyRequested)
    ensures UpdateDay(w, req).reply == Failed(Locked)
  {
    UpdateRefusedWhenLocked(w, req, d);
  }

  /** `attendance_require_day`: a request other than a POST is refused;
      otherwise sets the flag on the stored record directly, without
      recalculating and without dropping the month's cache entry. */
  function RequireDay(w: World, post: bool, date: Text<CivilDate>): (r: Outcome)
    ensures r.reply.Failed? || r.reply.Requested?
    ensures r.reply.Failed? ==> r.world == w
    ensures r.world.cache == w.cache
    ensures !post ==> r.reply == Failed(NotPost)
    ensures post && date.Blank? ==> r.reply == Failed(NoDay)
    ensures post && date == Given(None) ==> r.reply == Failed(InvalidDate)
    ensures post && date.Given? && date.parsed.Some? ==> r == RequireDate(w, date.parsed.value)
  {
    if !post then Outcome(Failed(NotPost), w)
    else if date.Blank? then Outcome(Failed(NoDay), w)
    else if date.parsed.None? then Outcome(Failed(InvalidDate), w)
    else RequireDate(w, date.parsed.value)
  }

  /** The flag update once the date has parsed: only the first stored record
      of the date changes, and only its flag. */
  function RequireDate(w: World, d: CivilDate): (r: Outcome)
    ensures r.reply.Failed? || r.reply.Requested?
    ensures r.reply.Failed? ==> r.world == w
    ensures r.world.employee == w.employee && r.world.rows.Keys == w.rows.Keys
    ensures r.world.cache == w.cache
    ensures r.reply.Requested? <==> RowOf(d) in w.rows && HasDate(w.rows[RowOf(d)].days, d)
    ensures r.reply.Requested? ==>
              var i := FirstIndexOf(w.rows[RowOf(d)].days, d).value;
              r.world.rows == w.rows[RowOf(d) := w.rows[RowOf(d)].(days := Flagged(w.rows[RowOf(d)].days, i))]
  {
    var key := RowOf(d);
    if key !in w.rows then Outcome(Failed(NoMonthData), w)
    else
      var row := w.rows[key];
      var i := FirstIndexOf(row.days, d);
      if i.None? then Outcome(Failed(NoRecord), w)
      else Outcome(Requested, w.(rows := w.rows[key := row.(days := Flagged(row.days, i.value))]))
  }

  /** `strftime('%H:%M')`: two digits that read back as the hour, a colon,
      and two digits that read back as the minute. */
  function HourMinute(t: TimeOfDay): (s: string)
    ensures |s| == 5 && s[2] == ':'
    ensures s[..2] == TwoDigits(t.hour) && AllDigits(s[..2]) && DigitsValue(s[..2]) == t.hour
    ensures s[3..] == TwoDigits(t.minute) && AllDigits(s[3..]) && DigitsValue(s[3..]) == t.minute
  {
    TwoDigits(t.hour) + ":" + TwoDigits(t.minute)
  }

  /** The displayed time is the stored ISO 8601 time without its seconds. */
  lemma HourMinuteIsIsoTimePrefix(t: TimeOfDay)
    ensures IsoTime(t) == HourMinute(t) + ":00"
  {
    TwoDigitsIsFormatInt(t.hour);
    TwoDigitsIsFormatInt(t.minute);
  }

  /** The record `DailyDataGetView` returns for a day: absent times and dates
      become "", absent notes too. */
  datatype DayView = DayView(workType: Option<WorkType>, start: string, end: string, altDate: string, notes: string)

  function ViewOf(d: Daily): DayView
  {
    DayView(d.workType,
            if d.start.Some? then HourMinute(d.start.value) else "",
            if d.end.Some? then HourMinute(d.end.value) else "",
            if d.altDate.Some? then IsoDate(d.altDate.value) else "",
            if d.notes.Some? then d.notes.value else "")
  }

  datatype DayReply = DayFailed(error: DayError) | DayFound(record: Option<DayView>)

  /** `DailyDataGetView.get`: a day of a month that is not stored has no record. */
  function GetDay(w: World, date: Text<CivilDate>): (r: DayReply)
    ensures date.Blank? ==> r == DayFailed(NoDay)
    ensures date == Given(None) ==> r == DayFailed(InvalidDate)
    ensures date.Given? && date.parsed.Some? && RowOf(date.parsed.value) !in w.rows ==> r == DayFound(None)
    ensures date.Given? && date.parsed.Some? ==>
              var d := date.parsed.value;
              RowOf(d) in w.rows && FindFirst(w.rows[RowOf(d)].days, d).Some? ==>
                r == DayFound(Some(ViewOf(FindFirst(w.rows[RowOf(d)].days, d).value)))
  {
    if date.Blank? then DayFailed(NoDay)
    else if date.parsed.None? then DayFailed(InvalidDate)
    else
      var d := date.parsed.value;
      if RowOf(d) in w.rows && FindFirst(w.rows[RowOf(d)].days, d).Some? then
        RecordOnStored(w, d);
        DayFound(RecordOn(w, d))
      else DayFound(RecordOn(w, d))
  }

  /** The record shown for a parsed date. */
  function RecordOn(w: World, d: CivilDate): (r: Option<DayView>)
    ensures RowOf(d) !in w.rows ==> r.None?
  {
    var loaded := Load(w, YearText(d), MonthText(d));
    if loaded.None? then None
    else
      var found := FindFirst(loaded.value.days, d);
      if found.None? then None else Some(ViewOf(found.value))
  }

  /** Reading a day back after a successful edit shows what was entered. */
  lemma UpdateThenGet(w: World, req: UpdateRequest, d: CivilDate)
    requires Complete(w, req, d)
    requires !UpdateDay(w, req).reply.Failed?
    ensures var got := RecordOn(UpdateDay(w, req).world, d);
            && got.Some?
            && got.value.workType == req.workType
            && got.value.start == (if Parsed(req.start).Some? then HourMinute(Parsed(req.start).value) else "")
            && got.value.end == (if Parsed(req.end).Some? then HourMinute(Parsed(req.end).value) else "")
  {
    UpdateDayEffect(w, req, d);
    var w1 := UpdateDay(w, req).world;
    RecordOnStored(w1, d);
  }

  /** Reading a day shows the stored record of that date: the recalculation
      on load does not touch what the view shows. */
  lemma RecordOnStored(w: World, d: CivilDate)
    requires RowOf(d) in w.rows && FindFirst(w.rows[RowOf(d)].days, d).Some?
    ensures RecordOn(w, d) == Some(ViewOf(FindFirst(w.rows[RowOf(d)].days, d).value))
  {
    LoadedIndex(w, d);
    var stored := w.rows[RowOf(d)].days;
    var loaded := Load(w, YearText(d), MonthText(d)).value.days;
    var i := FirstIndexOf(stored, d).value;
    assert SameInputs(loaded[i], stored[i]);
  }
}
