/** The month cache (`cache_utils.py`): a key→text store holding one JSON
    document per employee and month, written with a one-hour timeout, read
    back into a month record, and dropped when the month changes.

    The JSON text layer (`json.dumps` / `json.loads`) is abstracted: an entry
    holds either a parsed document tree, an empty text, or text that does not
    parse. */
module Cache {
  import opened Wrappers
  import opened Strings
  import opened Calendar
  import opened Records
  import opened Iso

  /** Seconds an entry lives (`timeout=3600`). */
  const Timeout := 3600

  // ---------------------------------------------------------------------------
  // Keys

  const KeyPrefix := "monthly_data:"

  /** `generate_cache_key`: "monthly_data:{employee}:{year}:{month.zfill(2)}". */
  function Key(employee: string, year: string, month: string): string
  {
    KeyPrefix + (employee + ":" + (year + ":" + ZFill(month, 2)))
  }

  /** A month written with or without its leading zero names the same entry. */
  lemma KeyIgnoresPadding(employee: string, year: string, month: string)
    ensures Key(employee, year, ZFill(month, 2)) == Key(employee, year, month)
    ensures Key(employee, year, "6") == Key(employee, year, "06")
  {
    ZFillIdempotent(month, 2);
  }

  /** Keys are equal exactly when the employee, the year and the padded month
      are, provided employee and year hold no ':'. */
  lemma KeyInjective(e1: string, y1: string, m1: string, e2: string, y2: string, m2: string)
    requires ':' !in e1 && ':' !in y1 && ':' !in e2 && ':' !in y2
    ensures Key(e1, y1, m1) == Key(e2, y2, m2) <==> e1 == e2 && y1 == y2 && ZFill(m1, 2) == ZFill(m2, 2)
  {
    if Key(e1, y1, m1) == Key(e2, y2, m2) {
      var rest1 := y1 + ":" + ZFill(m1, 2);
      var rest2 := y2 + ":" + ZFill(m2, 2);
      var n := |KeyPrefix|;
      assert Key(e1, y1, m1)[n..] == e1 + [':'] + rest1;
      assert Key(e2, y2, m2)[n..] == e2 + [':'] + rest2;
      SplitAtSeparator(e1, rest1, e2, rest2, ':');
      SplitAtSeparator(y1, ZFill(m1, 2), y2, ZFill(m2, 2), ':');
    }
  }

  // ---------------------------------------------------------------------------
  // The JSON document

  datatype Json =
    | JNull
    | JBool(b: bool)
    | JInt(i: int)
    | JReal(r: real)
    | JStr(s: string)
    | JArr(items: seq<Json>)
    | JObj(fields: map<string, Json>)

  /** Python truthiness of a decoded JSON value. */
  predicate Truthy(j: Json)
  {
    match j
    case JNull => false
    case JBool(b) => b
    case JInt(i) => i != 0
    case JReal(r) => r != 0.0
    case JStr(s) => |s| > 0
    case JArr(items) => |items| > 0
    case JObj(fields) => |fields| > 0
  }

  function EncodeReal(x: Option<real>): Json
  {
    if x.Some? then JReal(x.value) else JNull
  }

  /** The object of one day, keyed as `cache_monthly_data` writes it. */
  function DailyObject(date: Json, workType: Json, start: Json, end: Json, alt: Json, notes: Json,
                       confirmed: Json, breakMinutes: Json, standard: Json, regular: Json,
                       deduction: Json, overtime: Json, lateNight: Json, total: Json): map<string, Json>
  {
    map[
      "date" := date,
      "work_type" := workType,
      "start_time" := start,
      "end_time" := end,
      "alternative_work_date" := alt,
      "notes" := notes,
      "is_confirmed" := confirmed,
      "break_minutes" := breakMinutes,
      "standard_work_hours" := standard,
      "regular_work_hours" := regular,
      "deduction_hours" := deduction,
      "overtime_hours" := overtime,
      "late_night_overtime_hours" := lateNight,
      "total_hours" := total]
  }

  /** One day of `cache_monthly_data`; `is_required` is not written. */
  function EncodeDaily(d: Daily): Json
  {
    JObj(DailyObject(
      JStr(IsoDate(d.date)),
      if d.workType.Some? then JStr(Name(d.workType.value)) else JNull,
      if d.start.Some? then JStr(IsoTime(d.start.value)) else JNull,
      if d.end.Some? then JStr(IsoTime(d.end.value)) else JNull,
      if d.altDate.Some? then JStr(IsoDate(d.altDate.value)) else JNull,
      if d.notes.Some? then JStr(d.notes.value) else JNull,
      JBool(d.isConfirmed),
      JInt(d.breakMinutes),
      JReal(d.standardHours),
      EncodeReal(d.hours.regular),
      EncodeReal(d.hours.deduction),
      EncodeReal(d.hours.overtime),
      EncodeReal(d.hours.lateNight),
      EncodeReal(d.hours.total)))
  }

  function EncodeDays(days: seq<Daily>): (r: seq<Json>)
    ensures |r| == |days|
  {
    if |days| == 0 then [] else [EncodeDaily(days[0])] + EncodeDays(days[1..])
  }

  /** The object of one month, keyed as `cache_monthly_data` writes it. */
  function MonthObject(employee: Json, year: Json, month: Json, project: Json, calendar: Json,
                       breakMinutes: Json, standard: Json, days: Json): map<string, Json>
  {
    map[
      "employee_id" := employee,
      "year" := year,
      "month" := month,
      "project_name" := project,
      "base_calendar" := calendar,
      "break_minutes" := breakMinutes,
      "standard_work_hours" := standard,
      "daily_list" := days]
  }

  /** The document `cache_monthly_data` serialises. */
  function EncodeMonth(m: Monthly): Json
  {
    JObj(MonthObject(JStr(m.employeeId), JStr(m.year), JStr(m.month), JStr(m.projectName),
                     JStr(m.baseCalendar), JInt(m.breakMinutes), JReal(m.standardHours),
                     JArr(EncodeDays(m.days))))
  }

  /** How a stored clock time is read back. */
  datatype TimeReader =
    | ViaDatetime   // `datetime.fromisoformat(s).time()`, as the source reads it
    | ViaTime       // `time.fromisoformat(s)`

  function ReadTime(rd: TimeReader, s: string): Option<TimeOfDay>
  {
    match rd
    case ViaDatetime => ParseIsoDatetimeTime(s)
    case ViaTime => ParseIsoTime(s)
  }

  // Each field reader answers None for a document the source would reject
  // (`KeyError` / `ValueError`) and Some(value) otherwise.

  function ReadOptTime(j: Json, rd: TimeReader): Option<Option<TimeOfDay>>
  {
    if !Truthy(j) then Some(None)
    else if j.JStr? && ReadTime(rd, j.s).Some? then Some(ReadTime(rd, j.s))
    else None
  }

  function ReadDate(j: Json): Option<CivilDate>
  {
    if j.JStr? then ParseIsoDate(j.s) else None
  }

  function ReadOptDate(j: Json): Option<Option<CivilDate>>
  {
    if !Truthy(j) then Some(None)
    else if ReadDate(j).Some? then Some(ReadDate(j))
    else None
  }

  function ReadWorkType(j: Json): Option<Option<WorkType>>
  {
    if j.JNull? then Some(None)
    else if j.JStr? && FromName(j.s).Some? then Some(FromName(j.s))
    else None
  }

  function ReadOptString(j: Json): Option<Option<string>>
  {
    if j.JNull? then Some(None) else if j.JStr? then Some(Some(j.s)) else None
  }

  function ReadOptReal(j: Json): Option<Option<real>>
  {
    if j.JNull? then Some(None) else if j.JReal? then Some(Some(j.r)) else None
  }

  const DailyFields: set<string> := {
    "date", "work_type", "start_time", "end_time", "alternative_work_date", "notes",
    "is_confirmed", "break_minutes", "standard_work_hours", "regular_work_hours",
    "deduction_hours", "overtime_hours", "late_night_overtime_hours", "total_hours"}

  /** One day of `get_cached_monthly_data`; the restored record is not
      awaiting approval, since that flag is not stored. */
  function DecodeDaily(j: Json, rd: TimeReader): (r: Option<Daily>)
    ensures r.Some? ==> !r.value.isRequired
  {
    if !j.JObj? || !(DailyFields <= j.fields.Keys) then None
    else
      var o := j.fields;
      var date := ReadDate(o["date"]);
      var workType := ReadWorkType(o["work_type"]);
      var start := ReadOptTime(o["start_time"], rd);
      var end := ReadOptTime(o["end_time"], rd);
      var alt := ReadOptDate(o["alternative_work_date"]);
      var notes := ReadOptString(o["notes"]);
      var regular := ReadOptReal(o["regular_work_hours"]);
      var deduction := ReadOptReal(o["deduction_hours"]);
      var overtime := ReadOptReal(o["overtime_hours"]);
      var lateNight := ReadOptReal(o["late_night_overtime_hours"]);
      var total := ReadOptReal(o["total_hours"]);
      if date.None? || workType.None? || start.None? || end.None? || alt.None? || notes.None?
         || !o["is_confirmed"].JBool? || !o["break_minutes"].JInt? || !o["standard_work_hours"].JReal?
         || regular.None? || deduction.None? || overtime.None? || lateNight.None? || total.None?
      then None
      else Some(Daily(date.value, workType.value, start.value, end.value, alt.value, notes.value,
                      false, o["is_confirmed"].b, o["break_minutes"].i, o["standard_work_hours"].r,
                      Hours(regular.value, deduction.value, overtime.value, lateNight.value, total.value)))
  }

  /** The `daily_list` loop: the first record that fails spoils the whole list. */
  function DecodeDays(items: seq<Json>, rd: TimeReader): (r: Option<seq<Daily>>)
    ensures r.Some? ==> |r.value| == |items|
  {
    if |items| == 0 then Some([])
    else
      var head := DecodeDaily(items[0], rd);
      var tail := DecodeDays(items[1..], rd);
      if head.Some? && tail.Some? then Some([head.value] + tail.value) else None
  }

  const MonthFields: set<string> := {
    "employee_id", "year", "month", "project_name", "base_calendar", "break_minutes",
    "standard_work_hours", "daily_list"}

  function DecodeMonth(j: Json, rd: TimeReader): Option<Monthly>
  {
    if !j.JObj? || !(MonthFields <= j.fields.Keys) then None
    else
      var o := j.fields;
      if !o["employee_id"].JStr? || !o["year"].JStr? || !o["month"].JStr? || !o["project_name"].JStr?
         || !o["base_calendar"].JStr? || !o["break_minutes"].JInt? || !o["standard_work_hours"].JReal?
         || !o["daily_list"].JArr?
      then None
      else
        var days := DecodeDays(o["daily_list"].items, rd);
        if days.None? then None
        else Some(Monthly(o["employee_id"].s, o["year"].s, o["month"].s, o["project_name"].s,
                          o["base_calendar"].s, o["break_minutes"].i, o["standard_work_hours"].r, days.value))
  }

  /** What a cache round trip keeps of a record: everything but `is_required`. */
  function Cleared(days: seq<Daily>): (r: seq<Daily>)
    ensures |r| == |days|
    ensures forall i :: 0 <= i < |days| ==> r[i] == days[i].(isRequired := false)
  {
    seq(|days|, i requires 0 <= i < |days| => days[i].(isRequired := false))
  }

  /** Every field of a day object reads back as written. */
  lemma DailyObjectFields(date: Json, workType: Json, start: Json, end: Json, alt: Json, notes: Json,
                          confirmed: Json, breakMinutes: Json, standard: Json, regular: Json,
                          deduction: Json, overtime: Json, lateNight: Json, total: Json)
    ensures var o := DailyObject(date, workType, start, end, alt, notes, confirmed, breakMinutes, standard,
                                 regular, deduction, overtime, lateNight, total);
      DailyFields <= o.Keys
      && o["date"] == date && o["work_type"] == workType && o["start_time"] == start
      && o["end_time"] == end && o["alternative_work_date"] == alt && o["notes"] == notes
      && o["is_confirmed"] == confirmed && o["break_minutes"] == breakMinutes
      && o["standard_work_hours"] == standard && o["regular_work_hours"] == regular
      && o["deduction_hours"] == deduction && o["overtime_hours"] == overtime
      && o["late_night_overtime_hours"] == lateNight && o["total_hours"] == total
  {
    DailyObjectKeys(date, workType, start, end, alt, notes, confirmed, breakMinutes, standard,
                    regular, deduction, overtime, lateNight, total);
    DailyObjectHead(date, workType, start, end, alt, notes, confirmed, breakMinutes, standard,
                    regular, deduction, overtime, lateNight, total);
    DailyObjectEntries(date, workType, start, end, alt, notes, confirmed, breakMinutes, standard,
                       regular, deduction, overtime, lateNight, total);
    DailyObjectFigures(date, workType, start, end, alt, notes, confirmed, breakMinutes, standard,
                       regular, deduction, overtime, lateNight, total);
  }

  /** A day object has every key the reader looks up. */
  lemma DailyObjectKeys(date: Json, workType: Json, start: Json, end: Json, alt: Json, notes: Json,
                        confirmed: Json, breakMinutes: Json, standard: Json, regular: Json,
                        deduction: Json, overtime: Json, lateNight: Json, total: Json)
    ensures DailyFields <= DailyObject(date, workType, start, end, alt, notes, confirmed, breakMinutes,
                                       standard, regular, deduction, overtime, lateNight, total).Keys
  {
  }

  /** The date, work type and start of a day object. */
  lemma DailyObjectHead(date: Json, workType: Json, start: Json, end: Json, alt: Json, notes: Json,
                        confirmed: Json, breakMinutes: Json, standard: Json, regular: Json,
                        deduction: Json, overtime: Json, lateNight: Json, total: Json)
    ensures var o := DailyObject(date, workType, start, end, alt, notes, confirmed, breakMinutes, standard,
                                 regular, deduction, overtime, lateNight, total);
      o["date"] == date && o["work_type"] == workType && o["start_time"] == start
  {
  }

  /** The end, substitute date, notes and confirmation of a day object. */
  lemma DailyObjectEntries(date: Json, workType: Json, start: Json, end: Json, alt: Json, notes: Json,
                           confirmed: Json, breakMinutes: Json, standard: Json, regular: Json,
                           deduction: Json, overtime: Json, lateNight: Json, total: Json)
    ensures var o := DailyObject(date, workType, start, end, alt, notes, confirmed, breakMinutes, standard,
                                 regular, deduction, overtime, lateNight, total);
      o["end_time"] == end && o["alternative_work_date"] == alt && o["notes"] == notes
      && o["is_confirmed"] == confirmed
  {
  }

  /** The settings and derived figures of a day object. */
  lemma DailyObjectFigures(date: Json, workType: Json, start: Json, end: Json, alt: Json, notes: Json,
                            confirmed: Json, breakMinutes: Json, standard: Json, regular: Json,
                            deduction: Json, overtime: Json, lateNight: Json, total: Json)
    ensures var o := DailyObject(date, workType, start, end, alt, notes, confirmed, breakMinutes, standard,
                                 regular, deduction, overtime, lateNight, total);
      && o["break_minutes"] == breakMinutes
      && o["standard_work_hours"] == standard && o["regular_work_hours"] == regular
      && o["deduction_hours"] == deduction && o["overtime_hours"] == overtime
      && o["late_night_overtime_hours"] == lateNight && o["total_hours"] == total
  {
  }

  /** Every field of a month object reads back as written. */
  lemma MonthObjectFields(employee: Json, year: Json, month: Json, project: Json, calendar: Json,
                          breakMinutes: Json, standard: Json, days: Json)
    ensures var o := MonthObject(employee, year, month, project, calendar, breakMinutes, standard, days);
      MonthFields <= o.Keys
      && o["employee_id"] == employee && o["year"] == year && o["month"] == month
      && o["project_name"] == project && o["base_calendar"] == calendar
      && o["break_minutes"] == breakMinutes && o["standard_work_hours"] == standard
      && o["daily_list"] == days
  {
  }

  /** The fields of a written record, one by one. */
  lemma EncodedDailyFields(d: Daily)
    ensures var o := EncodeDaily(d).fields;
      DailyFields <= o.Keys
      && o["date"] == JStr(IsoDate(d.date))
      && o["work_type"] == (if d.workType.Some? then JStr(Name(d.workType.value)) else JNull)
      && o["start_time"] == (if d.start.Some? then JStr(IsoTime(d.start.value)) else JNull)
      && o["end_time"] == (if d.end.Some? then JStr(IsoTime(d.end.value)) else JNull)
      && o["alternative_work_date"] == (if d.altDate.Some? then JStr(IsoDate(d.altDate.value)) else JNull)
      && o["notes"] == (if d.notes.Some? then JStr(d.notes.value) else JNull)
      && o["is_confirmed"] == JBool(d.isConfirmed)
      && o["break_minutes"] == JInt(d.breakMinutes)
      && o["standard_work_hours"] == JReal(d.standardHours)
      && o["regular_work_hours"] == EncodeReal(d.hours.regular)
      && o["deduction_hours"] == EncodeReal(d.hours.deduction)
      && o["overtime_hours"] == EncodeReal(d.hours.overtime)
      && o["late_night_overtime_hours"] == EncodeReal(d.hours.lateNight)
      && o["total_hours"] == EncodeReal(d.hours.total)
  {
    DailyObjectFields(
      JStr(IsoDate(d.date)),
      if d.workType.Some? then JStr(Name(d.workType.value)) else JNull,
      if d.start.Some? then JStr(IsoTime(d.start.value)) else JNull,
      if d.end.Some? then JStr(IsoTime(d.end.value)) else JNull,
      if d.altDate.Some? then JStr(IsoDate(d.altDate.value)) else JNull,
      if d.notes.Some? then JStr(d.notes.value) else JNull,
      JBool(d.isConfirmed),
      JInt(d.breakMinutes),
      JReal(d.standardHours),
      EncodeReal(d.hours.regular),
      EncodeReal(d.hours.deduction),
      EncodeReal(d.hours.overtime),
      EncodeReal(d.hours.lateNight),
      EncodeReal(d.hours.total));
  }

  /** A written optional time reads back unchanged. */
  lemma OptTimeRoundTrip(t: Option<TimeOfDay>)
    ensures ReadOptTime(if t.Some? then JStr(IsoTime(t.value)) else JNull, ViaTime) == Some(t)
  {
    if t.Some? { IsoTimeRoundTrip(t.value); }
  }

  /** A written optional date reads back unchanged. */
  lemma OptDateRoundTrip(d: Option<CivilDate>)
    ensures ReadOptDate(if d.Some? then JStr(IsoDate(d.value)) else JNull) == Some(d)
  {
    if d.Some? {
      var j := JStr(IsoDate(d.value));
      IsoDateRoundTrip(d.value);
      assert ReadDate(j) == Some(d.value);
      assert Truthy(j);
    }
  }

  /** The written date, type, times and notes read back unchanged. */
  lemma EncodedInputsRead(d: Daily)
    ensures var o := EncodeDaily(d).fields;
      ReadDate(o["date"]) == Some(d.date)
      && ReadWorkType(o["work_type"]) == Some(d.workType)
      && ReadOptTime(o["start_time"], ViaTime) == Some(d.start)
      && ReadOptTime(o["end_time"], ViaTime) == Some(d.end)
      && ReadOptDate(o["alternative_work_date"]) == Some(d.altDate)
      && ReadOptString(o["notes"]) == Some(d.notes)
  {
    EncodedDailyFields(d);
    IsoDateRoundTrip(d.date);
    if d.workType.Some? { NameRoundTrip(d.workType.value); }
    OptTimeRoundTrip(d.start);
    OptTimeRoundTrip(d.end);
    OptDateRoundTrip(d.altDate);
  }

  /** The written figures read back unchanged. */
  lemma EncodedFiguresRead(d: Daily)
    ensures var o := EncodeDaily(d).fields;
      ReadOptReal(o["regular_work_hours"]) == Some(d.hours.regular)
      && ReadOptReal(o["deduction_hours"]) == Some(d.hours.deduction)
      && ReadOptReal(o["overtime_hours"]) == Some(d.hours.overtime)
      && ReadOptReal(o["late_night_overtime_hours"]) == Some(d.hours.lateNight)
      && ReadOptReal(o["total_hours"]) == Some(d.hours.total)
  {
    EncodedDailyFields(d);
  }

  lemma DecodeDailyRoundTrip(d: Daily)
    ensures DecodeDaily(EncodeDaily(d), ViaTime) == Some(d.(isRequired := false))
  {
    EncodedDailyFields(d);
    EncodedInputsRead(d);
    EncodedFiguresRead(d);
  }

  lemma {:induction false} DecodeDaysRoundTrip(days: seq<Daily>)
    ensures DecodeDays(EncodeDays(days), ViaTime) == Some(Cleared(days))
  {
    if |days| > 0 {
      DecodeDailyRoundTrip(days[0]);
      DecodeDaysRoundTrip(days[1..]);
      EncodeDaysCons(days);
      ClearedCons(days);
      DecodeDaysCons(EncodeDays(days), ViaTime, days[0].(isRequired := false), Cleared(days[1..]));
    }
  }

  /** A written list is the first record written, then the rest written. */
  lemma EncodeDaysCons(days: seq<Daily>)
    requires |days| > 0
    ensures EncodeDays(days)[0] == EncodeDaily(days[0]) && EncodeDays(days)[1..] == EncodeDays(days[1..])
  {
  }

  lemma ClearedCons(days: seq<Daily>)
    requires |days| > 0
    ensures Cleared(days) == [days[0].(isRequired := false)] + Cleared(days[1..])
  {
  }

  /** A list reads back when its first item and its rest do. */
  lemma DecodeDaysCons(items: seq<Json>, rd: TimeReader, x: Daily, rest: seq<Daily>)
    requires |items| > 0 && DecodeDaily(items[0], rd) == Some(x) && DecodeDays(items[1..], rd) == Some(rest)
    ensures DecodeDays(items, rd) == Some([x] + rest)
  {
  }

  /** Reading back a written month gives every stored field unchanged and
      every record with `is_required` cleared. */
  lemma DecodeMonthRoundTrip(m: Monthly)
    ensures DecodeMonth(EncodeMonth(m), ViaTime) == Some(m.(days := Cleared(m.days)))
  {
    MonthObjectFields(JStr(m.employeeId), JStr(m.year), JStr(m.month), JStr(m.projectName),
                      JStr(m.baseCalendar), JInt(m.breakMinutes), JReal(m.standardHours),
                      JArr(EncodeDays(m.days)));
    DecodeDaysRoundTrip(m.days);
  }

  /** Read the source's way, a record with a start or end time fails. */
  lemma DatetimeReaderLosesTimedDay(d: Daily)
    requires d.start.Some? || d.end.Some?
    ensures DecodeDaily(EncodeDaily(d), ViaDatetime).None?
  {
    EncodedDailyFields(d);
    if d.start.Some? {
      DatetimeReaderRejectsTimes(d.start.value);
    } else {
      DatetimeReaderRejectsTimes(d.end.value);
    }
  }

  lemma {:induction false} DatetimeReaderLosesTimedList(days: seq<Daily>, k: nat)
    requires k < |days| && (days[k].start.Some? || days[k].end.Some?)
    ensures DecodeDays(EncodeDays(days), ViaDatetime).None?
  {
    assert EncodeDays(days)[1..] == EncodeDays(days[1..]);
    if k == 0 {
      DatetimeReaderLosesTimedDay(days[0]);
    } else {
      DatetimeReaderLosesTimedList(days[1..], k - 1);
    }
  }

  // ---------------------------------------------------------------------------
  // The store

  /** The text held under a key. */
  datatype Payload =
    | Document(doc: Json)   // text that `json.loads` accepts
    | EmptyText             // "", which the reader treats like a missing entry
    | Malformed             // text `json.loads` rejects

  datatype Entry = Entry(payload: Payload, timeout: int)

  type CacheMap = map<string, Entry>

  /** `cache_monthly_data`: write the month under its key, nothing else changes. */
  function Put(c: CacheMap, employee: string, year: string, month: string, m: Monthly): (r: CacheMap)
    ensures r.Keys == c.Keys + {Key(employee, year, month)}
    ensures r[Key(employee, year, month)] == Entry(Document(EncodeMonth(m)), Timeout)
    ensures forall k :: k in c && k != Key(employee, year, month) ==> r[k] == c[k]
  {
    c[Key(employee, year, month) := Entry(Document(EncodeMonth(m)), Timeout)]
  }

  /** `invalidate_monthly_cache`: drop the month's key and touch no other. */
  function Invalidate(c: CacheMap, employee: string, year: string, month: string): (r: CacheMap)
    ensures Key(employee, year, month) !in r
    ensures forall k :: k != Key(employee, year, month) ==> (k in r <==> k in c)
    ensures forall k :: k in r ==> r[k] == c[k]
  {
    c - {Key(employee, year, month)}
  }

  /** The outcome of a read: the month found, and the cache afterwards. */
  datatype Lookup = Lookup(value: Option<Monthly>, cache: CacheMap)

  /** `get_cached_monthly_data` with a choice of time reader: a missing or empty
      entry is a miss; an entry that does not decode is deleted and is a miss. */
  function GetWith(c: CacheMap, employee: string, year: string, month: string, rd: TimeReader): (r: Lookup)
    ensures Key(employee, year, month) !in c ==> r == Lookup(None, c)
    ensures r.value.Some? ==> r.cache == c && Key(employee, year, month) in c
    ensures r.value.None? ==> r.cache == c || r.cache == c - {Key(employee, year, month)}
  {
    var k := Key(employee, year, month);
    if k !in c || c[k].payload.EmptyText? then Lookup(None, c)
    else if c[k].payload.Malformed? then Lookup(None, c - {k})
    else
      var m := DecodeMonth(c[k].payload.doc, rd);
      if m.Some? then Lookup(m, c) else Lookup(None, c - {k})
  }

  /** `get_cached_monthly_data` as written: times read with `datetime.fromisoformat`. */
  function GetCachedAsWritten(c: CacheMap, employee: string, year: string, month: string): (r: Lookup)
    ensures Key(employee, year, month) !in c ==> r == Lookup(None, c)
  {
    GetWith(c, employee, year, month, ViaDatetime)
  }

  /** `get_cached_monthly_data` with times read by `time.fromisoformat`; the
      rest of the model reads the cache through this one. */
  function GetCached(c: CacheMap, employee: string, year: string, month: string): (r: Lookup)
    ensures Key(employee, year, month) !in c ==> r == Lookup(None, c)
    ensures r.value.Some? ==> r.cache == c
  {
    GetWith(c, employee, year, month, ViaTime)
  }

  /** A write followed by a read of the same month hits, gives the month back
      with `is_required` cleared, and leaves the cache as written. */
  lemma PutThenGet(c: CacheMap, employee: string, year: string, month: string, m: Monthly)
    ensures GetCached(Put(c, employee, year, month, m), employee, year, month)
            == Lookup(Some(m.(days := Cleared(m.days))), Put(c, employee, year, month, m))
  {
    DecodeMonthRoundTrip(m);
  }

  /** Read the source's way, a written month with any clock time never comes
      back: the entry is deleted and the read misses. */
  lemma PutThenGetAsWritten(c: CacheMap, employee: string, year: string, month: string, m: Monthly, k: nat)
    requires k < |m.days| && (m.days[k].start.Some? || m.days[k].end.Some?)
    ensures GetCachedAsWritten(Put(c, employee, year, month, m), employee, year, month)
            == Lookup(None, Put(c, employee, year, month, m) - {Key(employee, year, month)})
  {
    DatetimeReaderLosesTimedList(m.days, k);
  }

  /** After invalidation a read of that month misses and changes nothing. */
  lemma InvalidateThenGet(c: CacheMap, employee: string, year: string, month: string, rd: TimeReader)
    ensures GetWith(Invalidate(c, employee, year, month), employee, year, month, rd)
            == Lookup(None, Invalidate(c, employee, year, month))
  {
  }

  /** Two caches that hold the same thing under `k`. */
  predicate AgreeAt(c1: CacheMap, c2: CacheMap, k: string)
  {
    (k in c1 <==> k in c2) && (k in c1 ==> c1[k] == c2[k])
  }

  /** A read of a month looks at that month's entry and nothing else. */
  lemma GetWithLocal(c1: CacheMap, c2: CacheMap, employee: string, year: string, month: string, rd: TimeReader)
    requires AgreeAt(c1, c2, Key(employee, year, month))
    ensures GetWith(c1, employee, year, month, rd).value == GetWith(c2, employee, year, month, rd).value
    ensures AgreeAt(GetWith(c1, employee, year, month, rd).cache, GetWith(c2, employee, year, month, rd).cache,
                    Key(employee, year, month))
  {
  }

  /** `get_monthly_data_with_cache` with a choice of time reader: a hit is
      returned as is; on a miss the store's month (`loaded`, the result of
      `get_or_create_monthly_structure`) is returned and, when there is one,
      cached. Only the month's own entry changes. */
  function ReadThrough(c: CacheMap, employee: string, year: string, month: string, loaded: Option<Monthly>,
                       rd: TimeReader): (r: Lookup)
    ensures GetWith(c, employee, year, month, rd).value.Some? ==> r == GetWith(c, employee, year, month, rd)
    ensures GetWith(c, employee, year, month, rd).value.None? ==> r.value == loaded
    ensures GetWith(c, employee, year, month, rd).value.None? && loaded.Some? ==>
              r.cache == Put(GetWith(c, employee, year, month, rd).cache, employee, year, month, loaded.value)
    ensures GetWith(c, employee, year, month, rd).value.None? && loaded.None? ==>
              r.cache == GetWith(c, employee, year, month, rd).cache
    ensures forall k :: k != Key(employee, year, month) ==> AgreeAt(r.cache, c, k)
    ensures rd == ViaTime && r.value.Some? ==> GetCached(r.cache, employee, year, month).value.Some?
  {
    var g := GetWith(c, employee, year, month, rd);
    if g.value.Some? then g
    else if loaded.Some? then
      PutThenGet(g.cache, employee, year, month, loaded.value);
      Lookup(loaded, Put(g.cache, employee, year, month, loaded.value))
    else Lookup(None, g.cache)
  }

  /** A read through a month depends on that month's entry alone. */
  lemma ReadThroughLocal(c1: CacheMap, c2: CacheMap, employee: string, year: string, month: string,
                         loaded: Option<Monthly>, rd: TimeReader)
    requires AgreeAt(c1, c2, Key(employee, year, month))
    ensures ReadThrough(c1, employee, year, month, loaded, rd).value
            == ReadThrough(c2, employee, year, month, loaded, rd).value
    ensures AgreeAt(ReadThrough(c1, employee, year, month, loaded, rd).cache,
                    ReadThrough(c2, employee, year, month, loaded, rd).cache, Key(employee, year, month))
  {
    GetWithLocal(c1, c2, employee, year, month, rd);
  }

  /** On a hit the store is not consulted: any store answer gives the same result. */
  lemma ReadThroughHitIgnoresStore(c: CacheMap, employee: string, year: string, month: string,
                                   a: Option<Monthly>, b: Option<Monthly>, rd: TimeReader)
    requires GetWith(c, employee, year, month, rd).value.Some?
    ensures ReadThrough(c, employee, year, month, a, rd) == ReadThrough(c, employee, year, month, b, rd)
  {
  }

  /** Read the source's way, a month with a clock time is never served from
      the cache: a read that misses returns the store's month and writes it,
      and every later read misses, returns the store's month again and
      rewrites the same entry. */
  lemma TimedMonthNeverStaysCached(c: CacheMap, employee: string, year: string, month: string,
                                   m: Monthly, k: nat)
    requires k < |m.days| && (m.days[k].start.Some? || m.days[k].end.Some?)
    requires GetWith(c, employee, year, month, ViaDatetime).value.None?
    ensures var r1 := ReadThrough(c, employee, year, month, Some(m), ViaDatetime);
            && r1.value == Some(m)
            && GetWith(r1.cache, employee, year, month, ViaDatetime).value.None?
            && ReadThrough(r1.cache, employee, year, month, Some(m), ViaDatetime) == r1
  {
    var g := GetWith(c, employee, year, month, ViaDatetime);
    var c1 := Put(g.cache, employee, year, month, m);
    PutThenGetAsWritten(g.cache, employee, year, month, m, k);
    assert Put(c1 - {Key(employee, year, month)}, employee, year, month, m) == c1;
  }

  // ---------------------------------------------------------------------------
  // Preloading the adjacent months

  /** The wrap of `preload_adjacent_months`: month 0 is December of the year
      before, month 13 January of the year after; nothing else is adjusted. */
  function Wrap(year: int, month: int): (r: (int, int))
    ensures 1 <= month <= 12 ==> r == (year, month)
  {
    if month == 0 then (year - 1, 12)
    else if month == 13 then (year + 1, 1)
    else (year, month)
  }

  /** The previous, current and next month, in the order they are loaded. */
  function PreloadMonths(year: int, month: int): (r: seq<(int, int)>)
    ensures |r| == 3
    ensures 1 <= month <= 12 ==> forall i :: 0 <= i < 3 ==> r[i] == MonthAt(MonthIndex(year, month) + i - 1)
  {
    [Wrap(year, month - 1), Wrap(year, month), Wrap(year, month + 1)]
  }

  /** The result key `f"{year:04d}-{month:02d}"`. */
  function MonthLabel(ym: (int, int)): string
  {
    FormatInt(ym.0, 4) + "-" + FormatInt(ym.1, 2)
  }

  /** Labels of months in 1..12 of non-negative years differ when the months do. */
  lemma MonthLabelInjective(a: (int, int), b: (int, int))
    requires a.0 >= 0 && b.0 >= 0 && 1 <= a.1 <= 12 && 1 <= b.1 <= 12
    requires MonthLabel(a) == MonthLabel(b)
    ensures a == b
  {
    assert Pow10(2) == 100;
    FormatNat(a.1, 2);
    FormatNat(b.1, 2);
    assert FormatInt(a.0, 4) == ZFill(NatToString(a.0), 4);
    assert FormatInt(b.0, 4) == ZFill(NatToString(b.0), 4);
    ZFillDigits(NatToString(a.0), 4);
    ZFillDigits(NatToString(b.0), 4);
    DigitsHaveNo(FormatInt(a.0, 4), '-');
    DigitsHaveNo(FormatInt(b.0, 4), '-');
    SplitAtSeparator(FormatInt(a.0, 4), FormatInt(a.1, 2), FormatInt(b.0, 4), FormatInt(b.1, 2), '-');
    FormatNatInjective(a.0, b.0, 4);
    FormatNatInjective(a.1, b.1, 2);
  }

  /** The store lookup by year and month text (`get_or_create_monthly_structure`). */
  type Loader = (string, string) -> Option<Monthly>

  /** One month of the loop: `get_monthly_data_with_cache(employee, str(year), str(month))`. */
  function Fetch(c: CacheMap, employee: string, ym: (int, int), load: Loader, rd: TimeReader): Lookup
  {
    var y := IntToString(ym.0);
    var m := IntToString(ym.1);
    ReadThrough(c, employee, y, m, load(y, m), rd)
  }

  /** The cache key a month of the loop is read under. */
  function KeyOfMonth(employee: string, ym: (int, int)): string
  {
    Key(employee, IntToString(ym.0), IntToString(ym.1))
  }

  /** The labels of a list of months. */
  function Labels(months: seq<(int, int)>): (r: set<string>)
    ensures forall x :: x in r <==> exists i :: 0 <= i < |months| && MonthLabel(months[i]) == x
  {
    if |months| == 0 then {}
    else
      var rest := Labels(months[1..]);
      assert forall i :: 1 <= i < |months| ==> months[1..][i - 1] == months[i];
      {MonthLabel(months[0])} + rest
  }

  /** The cache keys of a list of months. */
  function KeysOf(employee: string, months: seq<(int, int)>): (r: set<string>)
    ensures forall x :: x in r <==> exists i :: 0 <= i < |months| && KeyOfMonth(employee, months[i]) == x
  {
    if |months| == 0 then {}
    else
      var rest := KeysOf(employee, months[1..]);
      assert forall i :: 1 <= i < |months| ==> months[1..][i - 1] == months[i];
      {KeyOfMonth(employee, months[0])} + rest
  }

  /** Months whose result labels and cache keys all differ. */
  predicate Separate(employee: string, months: seq<(int, int)>)
  {
    forall i, j :: 0 <= i < j < |months| ==>
      MonthLabel(months[i]) != MonthLabel(months[j]) && KeyOfMonth(employee, months[i]) != KeyOfMonth(employee, months[j])
  }

  /** The loop of `preload_adjacent_months` over the remaining months. */
  function PreloadFrom(c: CacheMap, employee: string, months: seq<(int, int)>, load: Loader,
                       acc: map<string, Option<Monthly>>, rd: TimeReader): (r: (map<string, Option<Monthly>>, CacheMap))
    ensures r.0.Keys == acc.Keys + Labels(months)
    decreases |months|
  {
    if |months| == 0 then (acc, c)
    else
      var got := Fetch(c, employee, months[0], load, rd);
      PreloadFrom(got.cache, employee, months[1..], load, acc[MonthLabel(months[0]) := got.value], rd)
  }

  /** A read through one month leaves every other key's entry as it was. */
  lemma FetchFrame(c: CacheMap, employee: string, ym: (int, int), load: Loader, rd: TimeReader, k: string)
    requires k != KeyOfMonth(employee, ym)
    ensures AgreeAt(Fetch(c, employee, ym, load, rd).cache, c, k)
  {
  }

  /** A read through one month depends on that month's entry alone. */
  lemma FetchLocal(c1: CacheMap, c2: CacheMap, employee: string, ym: (int, int), load: Loader, rd: TimeReader)
    requires AgreeAt(c1, c2, KeyOfMonth(employee, ym))
    ensures Fetch(c1, employee, ym, load, rd).value == Fetch(c2, employee, ym, load, rd).value
    ensures AgreeAt(Fetch(c1, employee, ym, load, rd).cache, Fetch(c2, employee, ym, load, rd).cache,
                    KeyOfMonth(employee, ym))
  {
    var y := IntToString(ym.0);
    var m := IntToString(ym.1);
    ReadThroughLocal(c1, c2, employee, y, m, load(y, m), rd);
  }

  /** The loop keeps earlier results under labels it does not read. */
  lemma {:induction false} PreloadFromKeeps(c: CacheMap, employee: string, months: seq<(int, int)>, load: Loader,
                                            acc: map<string, Option<Monthly>>, rd: TimeReader, x: string)
    requires x in acc && x !in Labels(months)
    ensures PreloadFrom(c, employee, months, load, acc, rd).0[x] == acc[x]
    decreases |months|
  {
    if |months| > 0 {
      var got := Fetch(c, employee, months[0], load, rd);
      PreloadFromKeeps(got.cache, employee, months[1..], load, acc[MonthLabel(months[0]) := got.value], rd, x);
    }
  }

  /** The loop touches only the keys of its months. */
  lemma {:induction false} PreloadFromFrame(c: CacheMap, employee: string, months: seq<(int, int)>, load: Loader,
                                            acc: map<string, Option<Monthly>>, rd: TimeReader, k: string)
    requires k !in KeysOf(employee, months)
    ensures AgreeAt(PreloadFrom(c, employee, months, load, acc, rd).1, c, k)
    decreases |months|
  {
    if |months| > 0 {
      var got := Fetch(c, employee, months[0], load, rd);
      FetchFrame(c, employee, months[0], load, rd, k);
      PreloadFromFrame(got.cache, employee, months[1..], load, acc[MonthLabel(months[0]) := got.value], rd, k);
    }
  }

  /** When the months are separate, the loop finds for each month what a
      read through the cache it started from would find, and leaves that
      month's entry as such a read would. */
  lemma {:induction false} PreloadFromReads(c: CacheMap, employee: string, months: seq<(int, int)>, load: Loader,
                                            acc: map<string, Option<Monthly>>, rd: TimeReader, i: nat)
    requires Separate(employee, months) && i < |months|
    ensures var r := PreloadFrom(c, employee, months, load, acc, rd);
            && r.0[MonthLabel(months[i])] == Fetch(c, employee, months[i], load, rd).value
            && AgreeAt(r.1, Fetch(c, employee, months[i], load, rd).cache, KeyOfMonth(employee, months[i]))
    decreases |months|
  {
    if i == 0 {
      PreloadFromHead(c, employee, months, load, acc, rd);
    } else {
      var got := Fetch(c, employee, months[0], load, rd);
      SeparateTail(employee, months);
      PreloadFromReads(got.cache, employee, months[1..], load, acc[MonthLabel(months[0]) := got.value], rd, i - 1);
      PreloadFromTail(c, employee, months, load, acc, rd, i);
    }
  }

  /** The months after the first of a separate list are separate. */
  lemma SeparateTail(employee: string, months: seq<(int, int)>)
    requires Separate(employee, months) && 0 < |months|
    ensures Separate(employee, months[1..])
  {
    assert forall j :: 0 <= j < |months| - 1 ==> months[1..][j] == months[j + 1];
  }

  /** The first month of a separate list is read against the starting cache
      and neither its result nor its entry is touched afterwards. */
  lemma PreloadFromHead(c: CacheMap, employee: string, months: seq<(int, int)>, load: Loader,
                        acc: map<string, Option<Monthly>>, rd: TimeReader)
    requires Separate(employee, months) && 0 < |months|
    ensures var r := PreloadFrom(c, employee, months, load, acc, rd);
            && r.0[MonthLabel(months[0])] == Fetch(c, employee, months[0], load, rd).value
            && AgreeAt(r.1, Fetch(c, employee, months[0], load, rd).cache, KeyOfMonth(employee, months[0]))
  {
    var got := Fetch(c, employee, months[0], load, rd);
    var acc1 := acc[MonthLabel(months[0]) := got.value];
    HeadNotInTail(employee, months);
    PreloadFromKeeps(got.cache, employee, months[1..], load, acc1, rd, MonthLabel(months[0]));
    PreloadFromFrame(got.cache, employee, months[1..], load, acc1, rd, KeyOfMonth(employee, months[0]));
  }

  /** In a separate list the first month's label and key belong to no later month. */
  lemma HeadNotInTail(employee: string, months: seq<(int, int)>)
    requires Separate(employee, months) && 0 < |months|
    ensures MonthLabel(months[0]) !in Labels(months[1..])
    ensures KeyOfMonth(employee, months[0]) !in KeysOf(employee, months[1..])
  {
    assert forall j :: 0 <= j < |months| - 1 ==> months[1..][j] == months[j + 1];
  }

  /** A later month of a separate list: reading it after the first month
      finds what reading it against the starting cache finds. */
  lemma PreloadFromTail(c: CacheMap, employee: string, months: seq<(int, int)>, load: Loader,
                        acc: map<string, Option<Monthly>>, rd: TimeReader, i: nat)
    requires Separate(employee, months) && 0 < i < |months|
    requires var got := Fetch(c, employee, months[0], load, rd);
             var r := PreloadFrom(got.cache, employee, months[1..], load, acc[MonthLabel(months[0]) := got.value], rd);
             && r.0[MonthLabel(months[i])] == Fetch(got.cache, employee, months[i], load, rd).value
             && AgreeAt(r.1, Fetch(got.cache, employee, months[i], load, rd).cache, KeyOfMonth(employee, months[i]))
    ensures var r := PreloadFrom(c, employee, months, load, acc, rd);
            && r.0[MonthLabel(months[i])] == Fetch(c, employee, months[i], load, rd).value
            && AgreeAt(r.1, Fetch(c, employee, months[i], load, rd).cache, KeyOfMonth(employee, months[i]))
  {
    var got := Fetch(c, employee, months[0], load, rd);
    FetchFrame(c, employee, months[0], load, rd, KeyOfMonth(employee, months[i]));
    FetchLocal(got.cache, c, employee, months[i], load, rd);
  }

  /** What follows the employee and its separator in a key. */
  lemma KeyAfterEmployee(employee: string, year: string, month: string)
    ensures Key(employee, year, month)[|KeyPrefix| + |employee| + 1..] == year + [':'] + ZFill(month, 2)
  {
  }

  /** Keys of two months in 1..12 of non-negative years differ when the months do. */
  lemma MonthKeyInjective(employee: string, a: (int, int), b: (int, int))
    requires a.0 >= 0 && b.0 >= 0 && 1 <= a.1 <= 12 && 1 <= b.1 <= 12
    requires KeyOfMonth(employee, a) == KeyOfMonth(employee, b)
    ensures a == b
  {
    var ya := IntToString(a.0);
    var yb := IntToString(b.0);
    KeyAfterEmployee(employee, ya, IntToString(a.1));
    KeyAfterEmployee(employee, yb, IntToString(b.1));
    DigitsHaveNo(ya, ':');
    DigitsHaveNo(yb, ':');
    SplitAtSeparator(ya, ZFill(IntToString(a.1), 2), yb, ZFill(IntToString(b.1), 2), ':');
    assert FormatInt(a.0, 0) == ya && FormatInt(b.0, 0) == yb;
    FormatNatInjective(a.0, b.0, 0);
    FormatNatInjective(a.1, b.1, 2);
  }

  /** For a month in 1..12 of a year from 1 on, the three months the preload
      reads have distinct labels and distinct cache keys. */
  lemma ThreeMonthsSeparate(employee: string, year: int, month: int)
    ensures year >= 1 && 1 <= month <= 12 ==> Separate(employee, PreloadMonths(year, month))
  {
    if year >= 1 && 1 <= month <= 12 {
      var ms := PreloadMonths(year, month);
      forall a, b | 0 <= a < b < 3
        ensures MonthLabel(ms[a]) != MonthLabel(ms[b])
        ensures KeyOfMonth(employee, ms[a]) != KeyOfMonth(employee, ms[b])
      {
        if MonthLabel(ms[a]) == MonthLabel(ms[b]) {
          MonthLabelInjective(ms[a], ms[b]);
          assert false;
        }
        if KeyOfMonth(employee, ms[a]) == KeyOfMonth(employee, ms[b]) {
          MonthKeyInjective(employee, ms[a], ms[b]);
          assert false;
        }
      }
    }
  }

  /** `preload_adjacent_months`: a map from the three "YYYY-MM" labels to the
      months read through the cache, and the cache afterwards. Only the three
      months' entries change; for a real month each label holds what a read
      through the original cache finds (the store's month on a miss) and each
      entry is left as that read leaves it. */
  function Preload(c: CacheMap, employee: string, year: int, month: int, load: Loader, rd: TimeReader)
    : (r: (map<string, Option<Monthly>>, CacheMap))
    ensures r.0.Keys == {MonthLabel(Wrap(year, month - 1)), MonthLabel(Wrap(year, month)), MonthLabel(Wrap(year, month + 1))}
  {
    var months := PreloadMonths(year, month);
    LabelsOfThree(months);
    PreloadFrom(c, employee, months, load, map[], rd)
  }

  /** The labels of three months are the three labels. */
  lemma LabelsOfThree(months: seq<(int, int)>)
    requires |months| == 3
    ensures Labels(months) == {MonthLabel(months[0]), MonthLabel(months[1]), MonthLabel(months[2])}
  {
    var t1 := months[1..];
    var t2 := t1[1..];
    assert |t2[1..]| == 0 && t2[0] == months[2] && t1[0] == months[1];
    assert Labels(t2) == {MonthLabel(months[2])};
    assert Labels(t1) == {MonthLabel(months[1])} + Labels(t2);
  }

  /** Only the three months' entries change; for a real month each label
      holds what a read through the original cache finds (the store's month
      on a miss), and each month's entry is left as that read leaves it. */
  lemma PreloadReads(c: CacheMap, employee: string, year: int, month: int, load: Loader, rd: TimeReader)
    ensures forall k :: k !in KeysOf(employee, PreloadMonths(year, month)) ==>
              AgreeAt(Preload(c, employee, year, month, load, rd).1, c, k)
    ensures year >= 1 && 1 <= month <= 12 ==>
              var ms := PreloadMonths(year, month);
              var r := Preload(c, employee, year, month, load, rd);
              forall i :: 0 <= i < 3 ==>
                && r.0[MonthLabel(ms[i])] == Fetch(c, employee, ms[i], load, rd).value
                && AgreeAt(r.1, Fetch(c, employee, ms[i], load, rd).cache, KeyOfMonth(employee, ms[i]))
  {
    var months := PreloadMonths(year, month);
    forall k | k !in KeysOf(employee, months)
      ensures AgreeAt(Preload(c, employee, year, month, load, rd).1, c, k)
    {
      PreloadFromFrame(c, employee, months, load, map[], rd, k);
    }
    ThreeMonthsSeparate(employee, year, month);
    if year >= 1 && 1 <= month <= 12 {
      forall i | 0 <= i < 3
        ensures var r := Preload(c, employee, year, month, load, rd);
                && r.0[MonthLabel(months[i])] == Fetch(c, employee, months[i], load, rd).value
                && AgreeAt(r.1, Fetch(c, employee, months[i], load, rd).cache, KeyOfMonth(employee, months[i]))
      {
        PreloadFromReads(c, employee, months, load, map[], rd, i);
      }
    }
  }

  /** For a month in 1..12 of a year from 1 on, the preload holds exactly three
      entries: the labels of the three adjacent months all differ. */
  lemma PreloadHasThreeEntries(c: CacheMap, employee: string, year: int, month: int, load: Loader, rd: TimeReader)
    requires year >= 1 && 1 <= month <= 12
    ensures |Preload(c, employee, year, month, load, rd).0| == 3
  {
    ThreeLabelsDistinct(employee, year, month);
    ThreeKeys(Preload(c, employee, year, month, load, rd).0, MonthLabel(Wrap(year, month - 1)),
              MonthLabel(Wrap(year, month)), MonthLabel(Wrap(year, month + 1)));
  }

  /** For a month in 1..12 of a year from 1 on, the labels of the month
      before, the month and the month after all differ. */
  lemma ThreeLabelsDistinct(employee: string, year: int, month: int)
    requires year >= 1 && 1 <= month <= 12
    ensures MonthLabel(Wrap(year, month - 1)) != MonthLabel(Wrap(year, month))
    ensures MonthLabel(Wrap(year, month - 1)) != MonthLabel(Wrap(year, month + 1))
    ensures MonthLabel(Wrap(year, month)) != MonthLabel(Wrap(year, month + 1))
  {
    var ms := PreloadMonths(year, month);
    ThreeMonthsSeparate(employee, year, month);
    assert MonthLabel(ms[0]) != MonthLabel(ms[1]) && MonthLabel(ms[0]) != MonthLabel(ms[2])
           && MonthLabel(ms[1]) != MonthLabel(ms[2]);
  }

  /** A map keyed by three distinct labels has three entries. */
  lemma ThreeKeys<V>(m: map<string, V>, a: string, b: string, c: string)
    requires m.Keys == {a, b, c} && a != b && a != c && b != c
    ensures |m| == 3
  {
    assert |m.Keys| == 3;
  }
}
