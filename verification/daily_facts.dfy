/** Properties of the daily calculator: the overtime and late-night figures
    checked against an independent count of worked minutes, the bounds the
    source's rules imply, and worked examples. */
module DailyFacts {
  import opened Wrappers
  import opened Records
  import opened DailyCalc

  // ---------------------------------------------------------------------------
  // Reference: minutes of a segment that fall outside a set of break windows,
  // counted one minute at a time.

  /** A break window covering the minutes [from, to). */
  datatype Window = Window(from: int, to: int)

  predicate Covers(w: Window, t: int)
  {
    w.from <= t < w.to
  }

  predicate InSome(ws: seq<Window>, t: int)
  {
    exists i :: 0 <= i < |ws| && Covers(ws[i], t)
  }

  /** The minutes t in [lo, hi) that no window covers. */
  function FreeMinutes(lo: int, hi: int, ws: seq<Window>): (n: int)
    ensures 0 <= n
    ensures lo <= hi ==> n <= hi - lo
    decreases hi - lo
  {
    if hi <= lo then 0
    else FreeMinutes(lo, hi - 1, ws) + (if InSome(ws, hi - 1) then 0 else 1)
  }

  /** Length of the intersection of a window with [lo, hi). */
  function Overlap(w: Window, lo: int, hi: int): int
  {
    Max(0, Min(w.to, hi) - Max(w.from, lo))
  }

  function TotalOverlap(ws: seq<Window>, lo: int, hi: int): int
  {
    if |ws| == 0 then 0 else Overlap(ws[0], lo, hi) + TotalOverlap(ws[1..], lo, hi)
  }

  /** How many windows cover minute t. */
  function Covering(ws: seq<Window>, t: int): int
  {
    if |ws| == 0 then 0 else (if Covers(ws[0], t) then 1 else 0) + Covering(ws[1..], t)
  }

  predicate Disjoint(ws: seq<Window>)
  {
    forall i, j :: 0 <= i < j < |ws| ==> ws[i].to <= ws[j].from || ws[j].to <= ws[i].from
  }

  lemma {:induction false} CoveringDisjoint(ws: seq<Window>, t: int)
    requires Disjoint(ws)
    ensures Covering(ws, t) == (if InSome(ws, t) then 1 else 0)
  {
    if |ws| > 0 {
      var rest := ws[1..];
      assert Disjoint(rest) by {
        forall i, j | 0 <= i < j < |rest|
          ensures rest[i].to <= rest[j].from || rest[j].to <= rest[i].from
        {
          assert rest[i] == ws[i + 1] && rest[j] == ws[j + 1];
        }
      }
      CoveringDisjoint(rest, t);
      if Covers(ws[0], t) {
        assert !InSome(rest, t) by {
          forall k | 0 <= k < |rest| ensures !Covers(rest[k], t) {
            assert rest[k] == ws[k + 1];
          }
        }
        assert InSome(ws, t);
      } else if InSome(rest, t) {
        var k :| 0 <= k < |rest| && Covers(rest[k], t);
        assert ws[k + 1] == rest[k];
      } else {
        assert !InSome(ws, t) by {
          forall k | 0 <= k < |ws| ensures !Covers(ws[k], t) {
            if k > 0 { assert ws[k] == rest[k - 1]; }
          }
        }
      }
    }
  }

  lemma {:induction false} TotalOverlapStep(ws: seq<Window>, lo: int, hi: int)
    requires lo <= hi
    ensures TotalOverlap(ws, lo, hi + 1) == TotalOverlap(ws, lo, hi) + Covering(ws, hi)
  {
    if |ws| > 0 {
      TotalOverlapStep(ws[1..], lo, hi);
    }
  }

  /** Counting free minutes one by one agrees with subtracting each window's
      overlap from the segment length, provided the windows do not overlap. */
  lemma {:induction false} FreeMinutesByOverlap(lo: int, hi: int, ws: seq<Window>)
    requires lo <= hi
    requires Disjoint(ws)
    ensures FreeMinutes(lo, hi, ws) == (hi - lo) - TotalOverlap(ws, lo, hi)
    decreases hi - lo
  {
    if hi == lo {
      ZeroOverlap(ws, lo);
    } else {
      FreeMinutesByOverlap(lo, hi - 1, ws);
      TotalOverlapStep(ws, lo, hi - 1);
      CoveringDisjoint(ws, hi - 1);
    }
  }

  lemma TotalOverlapOfTwo(ws: seq<Window>, lo: int, hi: int)
    requires |ws| == 2
    ensures TotalOverlap(ws, lo, hi) == Overlap(ws[0], lo, hi) + Overlap(ws[1], lo, hi)
  {
    var tail := ws[1..];
    assert tail[0] == ws[1];
    assert tail[1..] == [];
    assert TotalOverlap(tail, lo, hi) == Overlap(ws[1], lo, hi) + TotalOverlap(tail[1..], lo, hi);
  }

  lemma TotalOverlapOfThree(ws: seq<Window>, lo: int, hi: int)
    requires |ws| == 3
    ensures TotalOverlap(ws, lo, hi) == Overlap(ws[0], lo, hi) + Overlap(ws[1], lo, hi) + Overlap(ws[2], lo, hi)
  {
    TotalOverlapOfTwo(ws[1..], lo, hi);
  }

  lemma {:induction false} ZeroOverlap(ws: seq<Window>, lo: int)
    ensures TotalOverlap(ws, lo, lo) == 0
  {
    if |ws| > 0 {
      ZeroOverlap(ws[1..], lo);
    }
  }

  /** The source's guarded subtraction is the overlap of a window with a
      well-formed segment. */
  lemma CutIsOverlap(bs: int, be: int, ss: int, se: int)
    requires ss <= se && bs <= be
    ensures Cut(bs, be, ss, se) == Overlap(Window(bs, be), ss, se)
  {
  }

  const EveningBreaks := [Window(Break1From, Break1To), Window(Break2From, Break2To)]
  const NightBreaks := [Window(LateBreak1From, LateBreak1To), Window(LateBreak2From, LateBreak2To)]

  function DayOffBreaks(breakMinutes: int): seq<Window>
  {
    [Window(Noon, Noon + breakMinutes), Window(Break1From, Break1To), Window(Break2From, Break2To)]
  }

  /** Ordinary-day overtime is the minutes from 18:00 to the end (capped at
      22:30) spent outside the evening breaks. */
  lemma WorkdayOvertimeIsFreeTime(e: int)
    requires e > EveningFrom
    ensures WorkdayOvertimeMinutes(e) == FreeMinutes(EveningFrom, Min(e, LateFrom), EveningBreaks)
  {
    var stop := Min(e, LateFrom);
    FreeMinutesByOverlap(EveningFrom, stop, EveningBreaks);
    TotalOverlapOfTwo(EveningBreaks, EveningFrom, stop);
    CutIsOverlap(Break1From, Break1To, EveningFrom, stop);
    CutIsOverlap(Break2From, Break2To, EveningFrom, stop);
  }

  /** Late-night time is the minutes from 22:30 to the later of next-day 06:00
      and the end spent outside the night breaks. */
  lemma LateNightIsFreeTime(e: int)
    ensures LateNightMinutes(e) == FreeMinutes(LateFrom, Max(NextMorning, e), NightBreaks)
  {
    var stop := Max(NextMorning, e);
    FreeMinutesByOverlap(LateFrom, stop, NightBreaks);
    TotalOverlapOfTwo(NightBreaks, LateFrom, stop);
    CutIsOverlap(LateBreak1From, LateBreak1To, LateFrom, stop);
    CutIsOverlap(LateBreak2From, LateBreak2To, LateFrom, stop);
  }

  /** Day-off overtime is the worked minutes up to 22:30 spent outside lunch
      and the evening breaks, when lunch does not run into the evening breaks. */
  lemma DayOffOvertimeIsFreeTime(s: int, e: int, breakMinutes: int)
    requires 0 <= breakMinutes <= Break1From - Noon
    requires s <= Min(e, LateFrom)
    ensures DayOffOvertimeMinutes(s, e, breakMinutes) == FreeMinutes(s, Min(e, LateFrom), DayOffBreaks(breakMinutes))
  {
    var stop := Min(e, LateFrom);
    FreeMinutesByOverlap(s, stop, DayOffBreaks(breakMinutes));
    TotalOverlapOfThree(DayOffBreaks(breakMinutes), s, stop);
    CutIsOverlap(Noon, Noon + breakMinutes, s, stop);
    CutIsOverlap(Break1From, Break1To, s, stop);
    CutIsOverlap(Break2From, Break2To, s, stop);
  }

  // ---------------------------------------------------------------------------
  // The figures of a day with both times, as free time in each regime

  /** On an ordinary day, overtime is the time from 18:00 to the rolled end
      (capped at 22:30) spent outside the evening breaks; nothing when the
      day ends by 18:00. */
  lemma {:induction false} WorkdayOvertimeHours(w: Option<WorkType>, start: TimeOfDay, end: TimeOfDay,
                                                breakMinutes: int, standard: real)
    requires !IsDayOff(w)
    ensures var e := RolledEnd(MinuteOfDay(start), MinuteOfDay(end));
            Compute(w, Some(start), Some(end), breakMinutes, standard).overtime
              == Some(Hrs(FreeMinutes(EveningFrom, Min(e, LateFrom), EveningBreaks)))
  {
    var e := RolledEnd(MinuteOfDay(start), MinuteOfDay(end));
    if e > EveningFrom {
      WorkdayOvertimeIsFreeTime(e);
    } else {
      assert FreeMinutes(EveningFrom, Min(e, LateFrom), EveningBreaks) == 0;
    }
  }

  /** On any work type, late-night time is the time from 22:30 to the later of
      next-day 06:00 and the rolled end spent outside the night breaks, once the
      day ends after 22:30; nothing otherwise. */
  lemma {:induction false} LateNightHours(w: Option<WorkType>, start: TimeOfDay, end: TimeOfDay,
                                          breakMinutes: int, standard: real)
    ensures var e := RolledEnd(MinuteOfDay(start), MinuteOfDay(end));
            Compute(w, Some(start), Some(end), breakMinutes, standard).lateNight
              == Some(Hrs(if e > LateFrom then FreeMinutes(LateFrom, Max(NextMorning, e), NightBreaks) else 0))
  {
    var e := RolledEnd(MinuteOfDay(start), MinuteOfDay(end));
    LateNightIsFreeTime(e);
  }

  /** On a day off, overtime is the time from the start to the rolled end
      (capped at 22:30) spent outside lunch and the evening breaks, provided
      lunch does not run into the evening breaks. */
  lemma {:induction false} DayOffOvertimeHours(w: Option<WorkType>, start: TimeOfDay, end: TimeOfDay,
                                               breakMinutes: int, standard: real)
    requires IsDayOff(w)
    requires 0 <= breakMinutes <= Break1From - Noon
    ensures var s := MinuteOfDay(start);
            var e := RolledEnd(s, MinuteOfDay(end));
            Compute(w, Some(start), Some(end), breakMinutes, standard).overtime
              == Some(Hrs(FreeMinutes(s, Min(e, LateFrom), DayOffBreaks(breakMinutes))))
  {
    var s := MinuteOfDay(start);
    var e := RolledEnd(s, MinuteOfDay(end));
    if s <= Min(e, LateFrom) {
      DayOffOvertimeIsFreeTime(s, e, breakMinutes);
    } else {
      // Only a start after 22:30 gets here: every cut is empty and the span negative.
      assert DayOffOvertimeMinutes(s, e, breakMinutes) == LateFrom - s;
      assert FreeMinutes(s, Min(e, LateFrom), DayOffBreaks(breakMinutes)) == 0;
    }
  }

  // ---------------------------------------------------------------------------
  // Consequences for the five figures

  /** Late-night time is the whole window from 22:30 less one hour of breaks,
      so any end after 22:30 yields at least 6.5 hours. */
  lemma LateNightClosedForm(e: int)
    ensures LateNightMinutes(e) == Max(NextMorning, e) - LateFrom - 60
    ensures LateNightMinutes(e) >= 390
  {
  }

  /** On an ordinary day that ends by 18:00 there is neither overtime nor
      late-night time. */
  lemma WorkdayEndingBy18(w: Option<WorkType>, start: TimeOfDay, end: TimeOfDay, breakMinutes: int, standard: real)
    requires !IsDayOff(w)
    requires RolledEnd(MinuteOfDay(start), MinuteOfDay(end)) <= EveningFrom
    ensures Compute(w, Some(start), Some(end), breakMinutes, standard).overtime == Some(0.0)
    ensures Compute(w, Some(start), Some(end), breakMinutes, standard).lateNight == Some(0.0)
  {
  }

  /** Ordinary-day overtime lies between 0 and 3.5 hours. */
  lemma WorkdayOvertimeBounds(w: Option<WorkType>, start: TimeOfDay, end: TimeOfDay, breakMinutes: int, standard: real)
    requires !IsDayOff(w)
    ensures 0.0 <= Compute(w, Some(start), Some(end), breakMinutes, standard).overtime.value <= 3.5
  {
    var e := RolledEnd(MinuteOfDay(start), MinuteOfDay(end));
    if e > EveningFrom {
      WorkdayOvertimeIsFreeTime(e);
    }
  }

  /** Any end after 22:30 earns at least 6.5 late-night hours, on any work type. */
  lemma LateNightAtLeastSixAndAHalf(w: Option<WorkType>, start: TimeOfDay, end: TimeOfDay, breakMinutes: int, standard: real)
    requires RolledEnd(MinuteOfDay(start), MinuteOfDay(end)) > LateFrom
    ensures Compute(w, Some(start), Some(end), breakMinutes, standard).lateNight.value >= 6.5
  {
    LateNightClosedForm(RolledEnd(MinuteOfDay(start), MinuteOfDay(end)));
  }

  /** On an ordinary day, overtime and late-night hours depend on the end only:
      two starts on the same side of the end give the same figures. */
  lemma WorkdayIndependentOfStart(w: Option<WorkType>, a: TimeOfDay, b: TimeOfDay, end: TimeOfDay,
                                  breakMinutes: int, standard: real)
    requires !IsDayOff(w)
    requires (MinuteOfDay(end) < MinuteOfDay(a)) == (MinuteOfDay(end) < MinuteOfDay(b))
    ensures Compute(w, Some(a), Some(end), breakMinutes, standard).overtime
         == Compute(w, Some(b), Some(end), breakMinutes, standard).overtime
    ensures Compute(w, Some(a), Some(end), breakMinutes, standard).lateNight
         == Compute(w, Some(b), Some(end), breakMinutes, standard).lateNight
  {
  }

  /** Regular hours are never below minus the lunch break, and never negative
      for a start outside 09:00–12:00. */
  lemma RegularLowerBound(w: Option<WorkType>, start: TimeOfDay, end: TimeOfDay, breakMinutes: int, standard: real)
    requires breakMinutes >= 0 && standard >= 0.0
    ensures RegularHours(w, Some(start), Some(end), breakMinutes, standard).value >= -(breakMinutes as real) / 60.0
    ensures !InMorningWindow(MinuteOfDay(start)) ==>
              RegularHours(w, Some(start), Some(end), breakMinutes, standard).value >= 0.0
  {
  }

  // ---------------------------------------------------------------------------
  // Worked examples

  /** 出勤 22:00 → 06:00, 60-minute break, 8-hour standard: regular 8.0,
      no deduction, overtime 3.5 (18:00 onwards whatever the start), late-night
      6.5, total 18.0. */
  lemma OvernightExample()
    ensures Compute(Some(Attendance), Some(Clock(22, 0)), Some(Clock(6, 0)), 60, 8.0)
         == Hours(Some(8.0), Some(0.0), Some(3.5), Some(6.5), Some(18.0))
  {
  }

  /** 休日(法) 09:00 → 18:00 with a 60-minute lunch: the whole span less lunch is
      overtime (8.0), no late-night time, no deduction; regular hours are still
      computed, so the total counts the same eight hours twice. */
  lemma LegalRestDayExample()
    ensures Compute(Some(LegalRestDay), Some(Clock(9, 0)), Some(Clock(18, 0)), 60, 8.0)
         == Hours(Some(8.0), None, Some(8.0), Some(0.0), Some(16.0))
  {
  }

  /** 有給(半) 09:00 → 14:00 with a 60-minute lunch: 4.0 regular hours, so the
      deduction is (8.0 − 4.0) + 4.0 = 8.0. */
  lemma HalfDayLeaveExample()
    ensures Compute(Some(HalfPaidLeave), Some(Clock(9, 0)), Some(Clock(14, 0)), 60, 8.0).regular == Some(4.0)
    ensures Compute(Some(HalfPaidLeave), Some(Clock(9, 0)), Some(Clock(14, 0)), 60, 8.0).deduction == Some(8.0)
  {
  }

  /** 11:30 → 11:45 with a 60-minute break gives −0.75 hours: the break is subtracted whether or
      not the shift reaches it, and nothing clamps the result at zero. */
  lemma NegativeRegularExample()
    ensures RegularHours(Some(Attendance), Some(Clock(11, 30)), Some(Clock(11, 45)), 60, 8.0) == Some(-0.75)
  {
  }

  /** 出勤 09:00 → 22:31: one minute after 22:30 opens the whole late-night
      window up to 06:00, 6.5 hours. */
  lemma ShortLateShiftExample()
    ensures Compute(Some(Attendance), Some(Clock(9, 0)), Some(Clock(22, 31)), 60, 8.0).lateNight == Some(6.5)
  {
  }
}
