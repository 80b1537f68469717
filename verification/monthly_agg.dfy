/** The monthly aggregator (`MonthlyData`): it pushes the month's settings
    onto every day, recalculates them, and reduces the day list to the summary
    figures of the attendance sheet. Sums are exact; the source's
    `round(x, 2)` / `round(x, 1)` on the results is not modelled. */
module MonthlyAgg {
  import opened Wrappers
  import opened Records
  import opened DailyCalc

  /** Every record carries the given break minutes and standard hours. */
  predicate HasSettings(days: seq<Daily>, breakMinutes: int, standard: real)
  {
    forall i :: 0 <= i < |days| ==> days[i].breakMinutes == breakMinutes && days[i].standardHours == standard
  }

  predicate AllCalculated(days: seq<Daily>)
  {
    forall i :: 0 <= i < |days| ==> IsCalculated(days[i])
  }

  /** The loop body of `calculate_all_daily_hours` applied to every record:
      copy the settings onto the day, then recalculate it. */
  function Recompute(days: seq<Daily>, breakMinutes: int, standard: real): (r: seq<Daily>)
    ensures |r| == |days|
    ensures forall i :: 0 <= i < |r| ==> SameInputs(r[i], days[i])
    ensures HasSettings(r, breakMinutes, standard)
    ensures AllCalculated(r)
  {
    seq(|days|, i requires 0 <= i < |days| =>
      Calculate(days[i].(breakMinutes := breakMinutes, standardHours := standard)))
  }

  /** `MonthlyData.calculate_all_daily_hours`. */
  function CalculateAll(m: Monthly): (r: Monthly)
    ensures r.(days := m.days) == m
    ensures |r.days| == |m.days|
    ensures forall i :: 0 <= i < |r.days| ==> SameInputs(r.days[i], m.days[i])
    ensures HasSettings(r.days, m.breakMinutes, m.standardHours)
    ensures AllCalculated(r.days)
  {
    m.(days := Recompute(m.days, m.breakMinutes, m.standardHours))
  }

  /** Recalculating a recalculated month changes nothing. */
  lemma CalculateAllIdempotent(m: Monthly)
    ensures CalculateAll(CalculateAll(m)) == CalculateAll(m)
  {
    var once := CalculateAll(m);
    var twice := CalculateAll(once);
    assert twice.days == once.days by {
      forall i | 0 <= i < |once.days| ensures twice.days[i] == once.days[i] {
        CalculateIdempotent(once.days[i]);
      }
    }
  }

  // ---------------------------------------------------------------------------
  // Sums of the derived figures

  datatype Figure = RegularFigure | DeductionFigure | OvertimeFigure | LateNightFigure

  function FigureOf(d: Daily, f: Figure): Option<real>
  {
    match f
    case RegularFigure => d.hours.regular
    case DeductionFigure => d.hours.deduction
    case OvertimeFigure => d.hours.overtime
    case LateNightFigure => d.hours.lateNight
  }

  /** Which records a sum looks at. */
  datatype Scope = EveryDay | LegalHolidaysOnly | ExceptLegalHolidays

  predicate InScope(d: Daily, sc: Scope)
  {
    match sc
    case EveryDay => true
    case LegalHolidaysOnly => IsLegalHoliday(d.workType)
    case ExceptLegalHolidays => !IsLegalHoliday(d.workType)
  }

  /** What one record adds to a sum: its figure when in scope and not null. */
  function Contribution(d: Daily, f: Figure, sc: Scope): real
  {
    if InScope(d, sc) && FigureOf(d, f).Some? then FigureOf(d, f).value else 0.0
  }

  /** The sum loops of the summary properties, which skip null figures. */
  function Sum(days: seq<Daily>, f: Figure, sc: Scope): real
  {
    if |days| == 0 then 0.0
    else Sum(days[..|days| - 1], f, sc) + Contribution(days[|days| - 1], f, sc)
  }

  lemma SumAppend(days: seq<Daily>, d: Daily, f: Figure, sc: Scope)
    ensures Sum(days + [d], f, sc) == Sum(days, f, sc) + Contribution(d, f, sc)
  {
    assert (days + [d])[..|days|] == days;
  }

  /** Every day's sum splits into the legal-holiday part and the rest. */
  lemma {:induction false} SumPartition(days: seq<Daily>, f: Figure)
    ensures Sum(days, f, EveryDay) == Sum(days, f, LegalHolidaysOnly) + Sum(days, f, ExceptLegalHolidays)
  {
    if |days| > 0 {
      SumPartition(days[..|days| - 1], f);
    }
  }

  /** Overtime and late-night figures of calculated records are never negative. */
  predicate NonNegativeFigure(days: seq<Daily>, f: Figure)
  {
    forall i :: 0 <= i < |days| ==> FigureOf(days[i], f).Some? ==> FigureOf(days[i], f).value >= 0.0
  }

  lemma CalculatedFiguresNonNegative(days: seq<Daily>)
    requires AllCalculated(days)
    ensures NonNegativeFigure(days, DeductionFigure)
    ensures NonNegativeFigure(days, OvertimeFigure)
    ensures NonNegativeFigure(days, LateNightFigure)
  {
  }

  /** A sum of non-negative figures over a sub-scope is at most the full sum. */
  lemma {:induction false} ScopedSumBounded(days: seq<Daily>, f: Figure, sc: Scope)
    requires NonNegativeFigure(days, f)
    ensures 0.0 <= Sum(days, f, sc) <= Sum(days, f, EveryDay)
  {
    if |days| > 0 {
      var init := days[..|days| - 1];
      assert NonNegativeFigure(init, f) by {
        forall i | 0 <= i < |init| ensures FigureOf(init[i], f).Some? ==> FigureOf(init[i], f).value >= 0.0 {
          assert init[i] == days[i];
        }
      }
      ScopedSumBounded(init, f, sc);
    }
  }

  /** The sums of calculated deduction, overtime and late-night figures. */
  lemma CalculatedSumBounded(days: seq<Daily>, f: Figure, sc: Scope)
    ensures AllCalculated(days) && f != RegularFigure ==> 0.0 <= Sum(days, f, sc) <= Sum(days, f, EveryDay)
  {
    if AllCalculated(days) && f != RegularFigure {
      CalculatedFiguresNonNegative(days);
      ScopedSumBounded(days, f, sc);
    }
  }

  /** `total_regular_work_hours`: regular hours of every day that is not a
      legal holiday. */
  function TotalRegular(m: Monthly): (r: real)
    ensures r + Sum(m.days, RegularFigure, LegalHolidaysOnly) == Sum(m.days, RegularFigure, EveryDay)
  {
    SumPartition(m.days, RegularFigure);
    Sum(m.days, RegularFigure, ExceptLegalHolidays)
  }

  /** `total_deduction_hours`. */
  function TotalDeduction(m: Monthly): (r: real)
    ensures AllCalculated(m.days) ==> r >= 0.0
  {
    CalculatedSumBounded(m.days, DeductionFigure, EveryDay);
    Sum(m.days, DeductionFigure, EveryDay)
  }

  /** `total_overtime_hours`. */
  function TotalOvertime(m: Monthly): (r: real)
    ensures AllCalculated(m.days) ==> r >= 0.0
  {
    CalculatedSumBounded(m.days, OvertimeFigure, EveryDay);
    Sum(m.days, OvertimeFigure, EveryDay)
  }

  /** `total_late_night_overtime_hours`. */
  function TotalLateNight(m: Monthly): (r: real)
    ensures AllCalculated(m.days) ==> r >= 0.0
  {
    CalculatedSumBounded(m.days, LateNightFigure, EveryDay);
    Sum(m.days, LateNightFigure, EveryDay)
  }

  /** `total_holiday_work_hours`: overtime worked on legal holidays, part of
      the month's overtime. */
  function TotalHolidayWork(m: Monthly): (r: real)
    ensures AllCalculated(m.days) ==> 0.0 <= r <= TotalOvertime(m)
  {
    CalculatedSumBounded(m.days, OvertimeFigure, LegalHolidaysOnly);
    Sum(m.days, OvertimeFigure, LegalHolidaysOnly)
  }

  /** `holiday_work_hours_night`: late-night time on legal holidays, part of the
      month's late-night time. */
  function HolidayNight(m: Monthly): (r: real)
    ensures AllCalculated(m.days) ==> 0.0 <= r <= TotalLateNight(m)
  {
    CalculatedSumBounded(m.days, LateNightFigure, LegalHolidaysOnly);
    Sum(m.days, LateNightFigure, LegalHolidaysOnly)
  }

  /** The premium-weighted sum of the conversion before flooring, in units of
      1.25-rate hours times 1.25. */
  function WeightedPremium(m: Monthly): real
  {
    1.25 * TotalOvertime(m) + 1.5 * TotalLateNight(m) + 1.35 * TotalHolidayWork(m)
    + 1.6 * HolidayNight(m) - TotalDeduction(m)
  }

  /** `holiday_work_hours_overtime` (残業換算): every premium category re-expressed
      in hours at the 1.25 rate, less the deduction, floored at zero. */
  function OvertimeConversion(m: Monthly): (r: real)
    ensures r >= 0.0
    ensures 1.25 * r >= WeightedPremium(m)
    ensures r > 0.0 ==> 1.25 * r == WeightedPremium(m)
  {
    var total := TotalOvertime(m) + TotalLateNight(m) * 1.5 / 1.25 + TotalHolidayWork(m) * 1.35 / 1.25
                 + HolidayNight(m) * 1.6 / 1.25 - TotalDeduction(m) * 1.0 / 1.25;
    if total > 0.0 then total else 0.0
  }

  /** Without a deduction the conversion never falls below the plain overtime
      plus late-night hours: every premium weight is at least the base rate. */
  lemma ConversionCoversPlainHours(m: Monthly)
    requires AllCalculated(m.days)
    requires TotalDeduction(m) == 0.0
    ensures OvertimeConversion(m) >= TotalOvertime(m) + TotalLateNight(m)
  {
  }

  // ---------------------------------------------------------------------------
  // Day counts

  function CountWhere(days: seq<Daily>, p: Daily -> bool): (n: nat)
    ensures n <= |days|
  {
    if |days| == 0 then 0
    else CountWhere(days[..|days| - 1], p) + (if p(days[|days| - 1]) then 1 else 0)
  }

  /** The positions of the records that satisfy `p`. */
  function Positions(days: seq<Daily>, p: Daily -> bool): set<int>
  {
    set i | 0 <= i < |days| && p(days[i])
  }

  /** The running count is the number of positions that satisfy `p`. */
  lemma {:induction false} CountWhereCountsPositions(days: seq<Daily>, p: Daily -> bool)
    ensures CountWhere(days, p) == |Positions(days, p)|
  {
    if |days| > 0 {
      var init := days[..|days| - 1];
      var last := |days| - 1;
      CountWhereCountsPositions(init, p);
      assert forall i :: 0 <= i < |init| ==> init[i] == days[i];
      if p(days[last]) {
        assert Positions(days, p) == Positions(init, p) + {last};
      } else {
        assert Positions(days, p) == Positions(init, p);
      }
    }
  }

  lemma {:induction false} CountWhereAll(days: seq<Daily>, p: Daily -> bool)
    ensures CountWhere(days, p) == |days| <==> forall i :: 0 <= i < |days| ==> p(days[i])
  {
    if |days| > 0 {
      var init := days[..|days| - 1];
      CountWhereAll(init, p);
      if forall i :: 0 <= i < |days| ==> p(days[i]) {
        assert forall i :: 0 <= i < |init| ==> p(init[i]) by {
          forall i | 0 <= i < |init| ensures p(init[i]) { assert init[i] == days[i]; }
        }
      } else {
        var k :| 0 <= k < |days| && !p(days[k]);
        if k < |init| {
          assert init[k] == days[k];
        }
      }
    }
  }

  /** `work_days`: the records with a start time. */
  function WorkDays(m: Monthly): (r: nat)
    ensures r == |set i | 0 <= i < |m.days| && m.days[i].start.Some?|
    ensures r <= |m.days|
    ensures r == |m.days| <==> forall i :: 0 <= i < |m.days| ==> m.days[i].start.Some?
  {
    var p := (d: Daily) => d.start.Some?;
    CountWhereAll(m.days, p);
    CountWhereCountsPositions(m.days, p);
    assert Positions(m.days, p) == set i | 0 <= i < |m.days| && m.days[i].start.Some?;
    CountWhere(m.days, p)
  }

  function CountType(days: seq<Daily>, w: WorkType): nat
  {
    CountWhere(days, (d: Daily) => d.workType == Some(w))
  }

  /** The running total of the `paid_leave_days` loop: +0.5 for 有給(半),
      +1 for 有給, −1 for 欠勤. */
  function LeaveBalance(days: seq<Daily>): real
  {
    if |days| == 0 then 0.0
    else
      var d := days[|days| - 1];
      LeaveBalance(days[..|days| - 1])
      + (if d.workType == Some(HalfPaidLeave) then 0.5
         else if d.workType == Some(PaidLeave) then 1.0
         else if d.workType == Some(Absence) then -1.0
         else 0.0)
  }

  /** The running total equals the weighted count of the three work types. */
  lemma {:induction false} LeaveBalanceByCounts(days: seq<Daily>)
    ensures LeaveBalance(days) == 0.5 * CountType(days, HalfPaidLeave) as real
                                 + CountType(days, PaidLeave) as real
                                 - CountType(days, Absence) as real
  {
    if |days| > 0 {
      LeaveBalanceByCounts(days[..|days| - 1]);
    }
  }

  /** `paid_leave_days`: the balance floored at zero. */
  function PaidLeaveDays(m: Monthly): (r: real)
    ensures r >= 0.0
    ensures r == (var b := 0.5 * CountType(m.days, HalfPaidLeave) as real + CountType(m.days, PaidLeave) as real
                           - CountType(m.days, Absence) as real;
                  if b > 0.0 then b else 0.0)
  {
    LeaveBalanceByCounts(m.days);
    var total := LeaveBalance(m.days);
    if total > 0.0 then total else 0.0
  }

  /** `special_paid_leave_days`: the 特別休暇 records. */
  function SpecialLeaveDays(m: Monthly): (r: nat)
    ensures r <= |m.days|
    ensures r == |set i | 0 <= i < |m.days| && m.days[i].workType == Some(SpecialLeave)|
  {
    var p := (d: Daily) => d.workType == Some(SpecialLeave);
    CountWhereCountsPositions(m.days, p);
    assert Positions(m.days, p) == set i | 0 <= i < |m.days| && m.days[i].workType == Some(SpecialLeave);
    CountWhere(m.days, p)
  }

  /** A 代休 record whose substituted work day is missing or is not its own date. */
  predicate UnmatchedCompRest(d: Daily)
  {
    d.workType == Some(CompensatoryRest) && (d.altDate.None? || d.altDate.value != d.date)
  }

  lemma {:induction false} CountWhereMonotone(days: seq<Daily>, p: Daily -> bool, q: Daily -> bool)
    requires forall d :: p(d) ==> q(d)
    ensures CountWhere(days, p) <= CountWhere(days, q)
  {
    if |days| > 0 {
      CountWhereMonotone(days[..|days| - 1], p, q);
    }
  }

  /** `unpaid_leave_days`: the 代休 records not yet matched to their work day. */
  function UnpaidLeaveDays(m: Monthly): (r: nat)
    ensures r <= CountType(m.days, CompensatoryRest)
    ensures r == |set i | 0 <= i < |m.days| && m.days[i].workType == Some(CompensatoryRest)
                                            && (m.days[i].altDate.None? || m.days[i].altDate.value != m.days[i].date)|
  {
    CountWhereCountsPositions(m.days, UnmatchedCompRest);
    assert Positions(m.days, UnmatchedCompRest)
        == set i | 0 <= i < |m.days| && m.days[i].workType == Some(CompensatoryRest)
                                      && (m.days[i].altDate.None? || m.days[i].altDate.value != m.days[i].date);
    CountWhereMonotone(m.days, UnmatchedCompRest, (d: Daily) => d.workType == Some(CompensatoryRest));
    CountWhere(m.days, UnmatchedCompRest)
  }

  /** The three-record example: one 有給, one 有給(半), one 欠勤 give 0.5 days. */
  lemma PaidLeaveExample(m: Monthly)
    requires |m.days| == 3
    requires m.days[0].workType == Some(PaidLeave)
    requires m.days[1].workType == Some(HalfPaidLeave)
    requires m.days[2].workType == Some(Absence)
    ensures PaidLeaveDays(m) == 0.5
  {
    var ds := m.days;
    assert ds[..1][..0] == [];
    assert LeaveBalance(ds[..1]) == 1.0;
    assert ds[..2][..1] == ds[..1];
    assert LeaveBalance(ds[..2]) == 1.5;
    assert ds[..|ds| - 1] == ds[..2];
    assert LeaveBalance(ds) == 0.5;
  }
}
