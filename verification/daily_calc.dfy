/** The daily calculator (`DailyData.calculate_work_hours`): from a day's work
    type, clock times and the month's break and standard hours it derives
    regular, deduction, overtime, late-night and total hours.

    Everything is placed on one timeline of whole minutes counted from midnight
    of the record's date. The start lies in [0, 1440); an end earlier than the
    start is read as the next day and moved 1440 minutes on. */
module DailyCalc {
  import opened Wrappers
  import opened Records

  const MinutesPerDay := 1440
  /** 09:00 and 12:00: a start in this window has the lunch break deducted. */
  const MorningFrom := 540
  const Noon := 720
  /** 18:00: overtime on ordinary days starts here. */
  const EveningFrom := 1080
  /** Evening breaks 19:30–20:00 and 22:00–22:30. */
  const Break1From := 1170
  const Break1To := 1200
  const Break2From := 1320
  const Break2To := 1350
  /** 22:30: late-night work starts here. */
  const LateFrom := 1350
  /** Late-night breaks 00:30–01:00 and 03:00–03:30 of the next day. */
  const LateBreak1From := 1470
  const LateBreak1To := 1500
  const LateBreak2From := 1620
  const LateBreak2To := 1650
  /** 06:00 of the next day: the earliest end of the late-night window. */
  const NextMorning := 1800
  /** 有給(半) adds half a day to the deduction. */
  const HalfDayPenalty := 4.0

  function Min(a: int, b: int): int { if a <= b then a else b }
  function Max(a: int, b: int): int { if a >= b then a else b }

  /** The end on the timeline: an end before the start belongs to the next day. */
  function RolledEnd(s: int, e: int): (r: int)
    requires 0 <= s < MinutesPerDay && 0 <= e < MinutesPerDay
    ensures s <= r < s + MinutesPerDay
    ensures r == e || r == e + MinutesPerDay
    ensures r - s == (e - s) % MinutesPerDay
  {
    if e < s then e + MinutesPerDay else e
  }

  /** The minutes the source subtracts for a break window [bs, be) against a
      segment [ss, se): its guarded `min(ends) - max(starts)`. */
  function Cut(bs: int, be: int, ss: int, se: int): int
  {
    if bs < se && be > ss then Min(be, se) - Max(bs, ss) else 0
  }

  /** Whether a start time falls in 09:00–12:00, both ends included. */
  predicate InMorningWindow(s: int)
  {
    MorningFrom <= s <= Noon
  }

  // ---------------------------------------------------------------------------
  // Regular and deduction hours

  /** `_calculate_regular_work_hours`. */
  function RegularHours(w: Option<WorkType>, start: Option<TimeOfDay>, end: Option<TimeOfDay>,
                        breakMinutes: int, standard: real): (r: Option<real>)
    ensures r.None? <==> start.None? || (end.None? && IsDayOff(w))
    ensures start.Some? && end.None? && !IsDayOff(w) ==> r == Some(standard)
    ensures r.Some? ==> r.value <= standard
    ensures start.Some? && end.Some? ==>
              var s := MinuteOfDay(start.value);
              var worked := (MinuteOfDay(end.value) - s) % MinutesPerDay
                            - (if InMorningWindow(s) then breakMinutes else 0);
              && r.Some?
              && (worked as real <= standard * 60.0 ==> r.value == worked as real / 60.0)
              && (worked as real > standard * 60.0 ==> r.value == standard)
  {
    if start.None? then None
    else if end.None? then (if IsDayOff(w) then None else Some(standard))
    else
      var s := MinuteOfDay(start.value);
      var e := RolledEnd(s, MinuteOfDay(end.value));
      var worked := (e - s) - (if InMorningWindow(s) then breakMinutes else 0);
      assert e - s == (MinuteOfDay(end.value) - s) % MinutesPerDay;
      if worked as real > standard * 60.0 then Some(standard) else Some(worked as real / 60.0)
  }

  /** `_calculate_deduction_hours`: the shortfall against the standard day, plus
      half a day for 有給(半), never below zero. */
  function DeductionHours(w: Option<WorkType>, regular: Option<real>, standard: real): (r: Option<real>)
    ensures r.None? <==> regular.None? || IsDayOff(w)
    ensures r.Some? ==> r.value >= 0.0
    ensures r.Some? ==> r.value >= standard - regular.value + (if w == Some(HalfPaidLeave) then HalfDayPenalty else 0.0)
    ensures r.Some? && r.value > 0.0 ==>
              r.value == standard - regular.value + (if w == Some(HalfPaidLeave) then HalfDayPenalty else 0.0)
  {
    if regular.None? || IsDayOff(w) then None
    else
      var shortfall := standard - regular.value + (if w == Some(HalfPaidLeave) then HalfDayPenalty else 0.0);
      Some(if shortfall > 0.0 then shortfall else 0.0)
  }

  // ---------------------------------------------------------------------------
  // Overtime and late-night minutes

  /** Late-night minutes for an end after 22:30: from 22:30 to the later of
      next-day 06:00 and the end, less the two night breaks. */
  function LateNightMinutes(e: int): int
  {
    var stop := Max(NextMorning, e);
    (stop - LateFrom) - Cut(LateBreak1From, LateBreak1To, LateFrom, stop)
                      - Cut(LateBreak2From, LateBreak2To, LateFrom, stop)
  }

  /** Overtime minutes of an ordinary day ending after 18:00: from 18:00 to the
      end capped at 22:30, less the two evening breaks. */
  function WorkdayOvertimeMinutes(e: int): int
  {
    var stop := if e <= LateFrom then e else LateFrom;
    (stop - EveningFrom) - Cut(Break1From, Break1To, EveningFrom, stop)
                         - Cut(Break2From, Break2To, EveningFrom, stop)
  }

  /** Overtime minutes of a day off: the whole span up to the end capped at
      22:30, less lunch (12:00 for `breakMinutes`) and the two evening breaks. */
  function DayOffOvertimeMinutes(s: int, e: int, breakMinutes: int): int
  {
    var stop := if e > LateFrom then LateFrom else e;
    (stop - s) - Cut(Noon, Noon + breakMinutes, s, stop)
               - Cut(Break1From, Break1To, s, stop)
               - Cut(Break2From, Break2To, s, stop)
  }

  /** Overtime and late-night minutes, both floored at zero (`_calculate_overtime_hours`
      once both times are present). `s` is the start, `e` the rolled end. */
  function OvertimeSplit(w: Option<WorkType>, s: int, e: int, breakMinutes: int): (r: (int, int))
    ensures r.0 >= 0 && r.1 >= 0
    ensures e <= LateFrom ==> r.1 == 0
    ensures !IsDayOff(w) && e <= EveningFrom ==> r == (0, 0)
  {
    var night := if e > LateFrom then Max(0, LateNightMinutes(e)) else 0;
    if IsDayOff(w) then (Max(0, DayOffOvertimeMinutes(s, e, breakMinutes)), night)
    else if e <= EveningFrom then (0, 0)
    else (Max(0, WorkdayOvertimeMinutes(e)), night)
  }

  function Hrs(m: int): real { m as real / 60.0 }

  /** All five derived figures of a day (`calculate_work_hours`). */
  function Compute(w: Option<WorkType>, start: Option<TimeOfDay>, end: Option<TimeOfDay>,
                   breakMinutes: int, standard: real): (h: Hours)
    ensures h.regular == RegularHours(w, start, end, breakMinutes, standard)
    ensures h.deduction == DeductionHours(w, h.regular, standard)
    ensures h.overtime.None? <==> start.None? || end.None?
    ensures h.lateNight.None? <==> start.None? || end.None?
    ensures h.total.None? <==> start.None? || end.None?
    ensures h.overtime.Some? ==> h.overtime.value >= 0.0 && h.lateNight.value >= 0.0
    ensures h.total.Some? ==>
              h.regular.Some? && h.total.value == h.regular.value + h.overtime.value + h.lateNight.value
  {
    var regular := RegularHours(w, start, end, breakMinutes, standard);
    var deduction := DeductionHours(w, regular, standard);
    if start.None? || end.None? then Hours(regular, deduction, None, None, None)
    else
      var s := MinuteOfDay(start.value);
      var e := RolledEnd(s, MinuteOfDay(end.value));
      var split := OvertimeSplit(w, s, e, breakMinutes);
      var overtime := Hrs(split.0);
      var night := Hrs(split.1);
      Hours(regular, deduction, Some(overtime), Some(night), Some(regular.value + overtime + night))
  }

  /** A record whose derived figures are those of its own inputs and settings. */
  predicate IsCalculated(d: Daily)
  {
    d.hours == Compute(d.workType, d.start, d.end, d.breakMinutes, d.standardHours)
  }

  /** `DailyData.calculate_work_hours` on a whole record. */
  function Calculate(d: Daily): (r: Daily)
    ensures SameInputs(r, d)
    ensures r.breakMinutes == d.breakMinutes && r.standardHours == d.standardHours
    ensures IsCalculated(r)
  {
    d.(hours := Compute(d.workType, d.start, d.end, d.breakMinutes, d.standardHours))
  }

  /** Recalculating changes nothing: the derived figures depend on the inputs only. */
  lemma CalculateIdempotent(d: Daily)
    ensures Calculate(Calculate(d)) == Calculate(d)
    ensures IsCalculated(d) ==> Calculate(d) == d
  {
  }
}
