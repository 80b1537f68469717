/** The administration pages that hold logic of their own: the monthly
    approval actions, month navigation of the payroll and employee-detail
    pages, and the paid-leave count of the detail page. */
module AdminViews {
  import opened Wrappers
  import opened Strings
  import opened Calendar
  import opened Records
  import opened MonthlyAgg
  import opened Store

  // ---------------------------------------------------------------------------
  // Monthly approval (`monthly_approval_action`)

  /** The flash message each action leaves. */
  datatype Notice =
    | RequestNotice    // 承認申請を行いました。
    | ApproveNotice    // 承認が確定されました。
    | CancelNotice     // 承認申請をキャンセルしました。
    | ReviseNotice     // 修正依頼を出しました。
    | InvalidNotice    // 不正な操作です。

  predicate Recognised(action: string)
  {
    action == "request" || action == "approve" || action == "cancel" || action == "revise"
  }

  /** The approval flags a month can be in after any recognised action: never
      both requested and confirmed. */
  predicate Consistent(row: MonthRow)
  {
    !(row.isRequired && row.isConfirmed)
  }

  /** One action on a month row: `request` asks for approval, `approve`
      confirms, `cancel` and `revise` clear both flags, anything else only
      reports an error. No other field of the row changes. */
  function ApplyAction(row: MonthRow, action: string): (r: (MonthRow, Notice))
    ensures r.0 == row.(isRequired := r.0.isRequired, isConfirmed := r.0.isConfirmed)
    ensures Recognised(action) ==> Consistent(r.0)
    ensures !Recognised(action) <==> r.1 == InvalidNotice
    ensures !Recognised(action) ==> r.0 == row
    ensures r.0.isConfirmed <==> action == "approve" || (!Recognised(action) && row.isConfirmed)
    ensures r.0.isRequired <==> action == "request" || (!Recognised(action) && row.isRequired)
  {
    if action == "request" then (row.(isRequired := true, isConfirmed := false), RequestNotice)
    else if action == "approve" then (row.(isConfirmed := true, isRequired := false), ApproveNotice)
    else if action == "cancel" then (row.(isRequired := false, isConfirmed := false), CancelNotice)
    else if action == "revise" then (row.(isRequired := false, isConfirmed := false), ReviseNotice)
    else (row, InvalidNotice)
  }

  datatype ActionReply = NotFound | Acted(notice: Notice)

  /** The view on a stored month: a month that does not exist is a 404. */
  function ApprovalAction(w: World, key: MonthKey, action: string): (r: (ActionReply, World))
    ensures r.0 == NotFound <==> key !in w.rows
    ensures r.0 == NotFound ==> r.1 == w
    ensures r.1.employee == w.employee && r.1.cache == w.cache && r.1.rows.Keys == w.rows.Keys
    ensures forall k :: k in w.rows && k != key ==> r.1.rows[k] == w.rows[k]
    ensures key in w.rows ==> r.1.rows[key] == ApplyAction(w.rows[key], action).0
  {
    if key !in w.rows then (NotFound, w)
    else
      var step := ApplyAction(w.rows[key], action);
      (Acted(step.1), w.(rows := w.rows[key := step.0]))
  }

  /** A run of actions on one month. */
  function ApplyAll(row: MonthRow, actions: seq<string>): MonthRow
  {
    if |actions| == 0 then row else ApplyAction(ApplyAll(row, actions[..|actions| - 1]), actions[|actions| - 1]).0
  }

  /** The last recognised action of a run, if there is one. */
  function LastRecognised(actions: seq<string>): (r: Option<string>)
    ensures r.Some? ==> Recognised(r.value) && r.value in actions
    ensures r.None? <==> forall i :: 0 <= i < |actions| ==> !Recognised(actions[i])
    ensures r.Some? ==> exists k :: 0 <= k < |actions| && actions[k] == r.value
                                    && forall j :: k < j < |actions| ==> !Recognised(actions[j])
  {
    if |actions| == 0 then None
    else if Recognised(actions[|actions| - 1]) then Some(actions[|actions| - 1])
    else
      var r := LastRecognised(actions[..|actions| - 1]);
      assert forall i :: 0 <= i < |actions| - 1 ==> actions[..|actions| - 1][i] == actions[i];
      r
  }

  /** The flags after a run of actions depend only on its last recognised
      action; with none, the month keeps its flags. */
  lemma {:induction false} LastActionDecides(row: MonthRow, actions: seq<string>)
    ensures var last := LastRecognised(actions);
            var after := ApplyAll(row, actions);
            && after == row.(isRequired := after.isRequired, isConfirmed := after.isConfirmed)
            && (last.None? ==> after == row)
            && (last.Some? ==> after.isRequired == (last.value == "request")
                               && after.isConfirmed == (last.value == "approve"))
  {
    if |actions| > 0 {
      LastActionDecides(row, actions[..|actions| - 1]);
    }
  }

  /** A month that starts consistent stays consistent, whatever actions,
      recognised or not, are applied to it. */
  lemma {:induction false} ActionsKeepConsistent(row: MonthRow, actions: seq<string>)
    requires Consistent(row)
    ensures Consistent(ApplyAll(row, actions))
  {
    if |actions| > 0 {
      ActionsKeepConsistent(row, actions[..|actions| - 1]);
    }
  }

  // ---------------------------------------------------------------------------
  // Month navigation

  /** The links of the payroll page: years as numbers, months as two-digit text. */
  datatype PayrollNav = PayrollNav(prevYear: int, prevMonth: string, nextYear: int, nextMonth: string)

  /** `payroll_view`'s previous and next month, computed as the page does. */
  function PayrollNavigation(year: int, month: int): (r: PayrollNav)
    ensures 1 <= month <= 12 ==>
              var p := MonthAt(MonthIndex(year, month) - 1);
              var n := MonthAt(MonthIndex(year, month) + 1);
              && r.prevYear == p.0 && r.prevMonth == FormatInt(p.1, 2)
              && r.nextYear == n.0 && r.nextMonth == FormatInt(n.1, 2)
  {
    var prevMonth := if month > 1 then month - 1 else 12;
    var prevYear := if month == 1 then year - 1 else year;
    var nextMonth := if month < 12 then month + 1 else 1;
    var nextYear := if month == 12 then year + 1 else year;
    PayrollNav(prevYear, FormatInt(prevMonth, 2), nextYear, FormatInt(nextMonth, 2))
  }

  /** For a real month the links are two digits naming a month. */
  lemma PayrollLinksAreMonths(year: int, month: int)
    requires 1 <= month <= 12
    ensures var r := PayrollNavigation(year, month);
            && |r.prevMonth| == 2 && AllDigits(r.prevMonth) && 1 <= DigitsValue(r.prevMonth) <= 12
            && |r.nextMonth| == 2 && AllDigits(r.nextMonth) && 1 <= DigitsValue(r.nextMonth) <= 12
  {
    assert Pow10(2) == 100;
    FormatNat(if month > 1 then month - 1 else 12, 2);
    FormatNat(if month < 12 then month + 1 else 1, 2);
  }

  /** The month the payroll page shows: the query's year and month, or today's,
      the month zero-padded. */
  function PayrollMonth(today: CivilDate, year: Option<string>, month: Option<string>): (r: (string, string))
    ensures year.Some? ==> r.0 == year.value
    ensures month.Some? ==> r.1 == month.value
    ensures year.None? ==> r.0 == IntToString(today.year)
    ensures month.None? ==> |r.1| == 2 && AllDigits(r.1) && DigitsValue(r.1) == today.month
  {
    FormatNat(today.month, 2);
    (if year.Some? then year.value else IntToString(today.year),
     if month.Some? then month.value else ZFill(IntToString(today.month), 2))
  }

  /** `employee_detail_view`'s neighbours: the day before the 1st and the day
      after the last day. `None` where `date` or the day arithmetic raises. */
  function DetailNavigation(year: int, month: int): (r: Option<(CivilDate, CivilDate)>)
    ensures r.Some? <==> ValidDate(year, month, 1) && (year, month) != (MinYear, 1) && (year, month) != (MaxYear, 12)
    ensures r.Some? ==>
              var p := MonthAt(MonthIndex(year, month) - 1);
              var n := MonthAt(MonthIndex(year, month) + 1);
              && (r.value.0.year, r.value.0.month) == p && r.value.0.day == DaysInMonth(p.0, p.1)
              && (r.value.1.year, r.value.1.month) == n && r.value.1.day == 1
  {
    if !ValidDate(year, month, 1) then None
    else
      MonthNeighbours(year, month);
      var prev := PrevDay(FirstOfMonth(year, month));
      var next := NextDay(LastOfMonth(year, month));
      if prev.None? || next.None? then None else Some((prev.value, next.value))
  }

  /** The two pages agree: wherever the detail page can navigate, its
      neighbours are the payroll page's neighbours. */
  lemma NavigationAgrees(year: int, month: int)
    requires DetailNavigation(year, month).Some?
    ensures var d := DetailNavigation(year, month).value;
            var p := PayrollNavigation(year, month);
            && d.0.year == p.prevYear && FormatInt(d.0.month, 2) == p.prevMonth
            && d.1.year == p.nextYear && FormatInt(d.1.month, 2) == p.nextMonth
  {
  }

  // ---------------------------------------------------------------------------
  // Paid leave on the detail page

  /** Python's `t in s` on strings. */
  predicate ContainsText(s: string, t: string)
    decreases |s|
  {
    |t| <= |s| && (s[..|t|] == t || ContainsText(s[1..], t))
  }

  /** Whether a day counts towards `paid_leave_used`: its work type's label
      contains 有給. A day with no work type does not count. */
  predicate MarkedPaidLeave(d: Daily)
  {
    d.workType.Some? && ContainsText(Name(d.workType.value), "有給")
  }

  /** Text that contains a non-empty pattern contains the pattern's first character. */
  lemma {:induction false} ContainsFirst(s: string, t: string)
    requires |t| > 0 && ContainsText(s, t)
    ensures t[0] in s
    decreases |s|
  {
    if s[..|t|] == t {
      assert s[0] == t[0];
    } else {
      ContainsFirst(s[1..], t);
      var i :| 0 <= i < |s[1..]| && s[1..][i] == t[0];
      assert s[i + 1] == t[0];
    }
  }

  /** The work types whose label contains 有給 are exactly 有給 and 有給(半). */
  lemma PaidLeaveLabels(w: WorkType)
    ensures ContainsText(Name(w), "有給") <==> w == PaidLeave || w == HalfPaidLeave
  {
    var s := Name(w);
    if w == PaidLeave || w == HalfPaidLeave {
      assert s[..2] == "有給";
    } else if ContainsText(s, "有給") {
      ContainsFirst(s, "有給");
      assert false;
    }
  }

  /** `paid_leave_used`: every marked day counts one, a half day included. */
  function PaidLeaveUsed(days: seq<Daily>): (r: nat)
    ensures r <= |days|
  {
    CountWhere(days, MarkedPaidLeave)
  }

  /** The count is the number of 有給 days plus the number of 有給(半) days. */
  lemma {:induction false} PaidLeaveUsedByType(days: seq<Daily>)
    ensures PaidLeaveUsed(days) == CountType(days, PaidLeave) + CountType(days, HalfPaidLeave)
  {
    if |days| > 0 {
      PaidLeaveUsedByType(days[..|days| - 1]);
      var d := days[|days| - 1];
      if d.workType.Some? {
        PaidLeaveLabels(d.workType.value);
      }
    }
  }

  /** The detail page never shows less leave taken than the month summary's
      `paid_leave_days`, and shows the same figure exactly when the month has
      no half day and no absence next to paid leave. */
  lemma PaidLeaveUsedCoversDays(m: Monthly)
    ensures PaidLeaveUsed(m.days) as real >= PaidLeaveDays(m)
    ensures CountType(m.days, HalfPaidLeave) == 0 && CountType(m.days, Absence) == 0
            ==> PaidLeaveUsed(m.days) as real == PaidLeaveDays(m)
    ensures PaidLeaveUsed(m.days) as real == PaidLeaveDays(m)
            <==> CountType(m.days, HalfPaidLeave) == 0
                 && (CountType(m.days, Absence) == 0 || CountType(m.days, PaidLeave) == 0)
  {
    PaidLeaveUsedByType(m.days);
  }
}
