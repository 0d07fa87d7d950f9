/**
 * The reports page (WebApp/src/components/Reports/index.jsx): the end of a report's week, which
 * reports each tab lists, the tab a user starts on, the link that opens a report and how the
 * report named by the address is found again. The clock is a parameter (`now`).
 */
module ReportsPage {
  import opened Wrappers
  import opened CivilTime
  import DateText
  import LessonEditor
  import opened Listing

  /**
   * A report as the page receives it from `format_reports`: a lesson-based report has an id and
   * its lesson's start and end; a weekly row has none of them, and lists the ids of its reports.
   */
  datatype Report = Report(
    id: Option<nat>, invoice: nat, student: nat, status: string, statusText: string, safeguarding: bool,
    tutorName: string, studentName: string, invoiceTitle: string, week: Date, weekShort: string,
    start: Option<DateTime>, end: Option<DateTime>, reportIds: seq<nat>)

  // ---- The end of a report's week ----

  /** Moving `k` days moves JavaScript's day of the week by `k` modulo 7. */
  lemma JsDayShift(d: Date, r: Date, k: int)
    requires 1 <= d.month <= 12 && 1 <= r.month <= 12
    requires DayNumber(r) == DayNumber(d) + k
    ensures JsDay(r) == (JsDay(d) + k) % 7
  {
    ModShift(DayNumber(d) + 4, k);
  }

  /** No day from `d` up to the one `6 - JsDay(d)` days later, exclusive, is a Saturday. */
  lemma BeforeSaturday(d: Date, e: Date)
    requires 1 <= d.month <= 12 && 1 <= e.month <= 12
    requires DayNumber(d) <= DayNumber(e) < DayNumber(d) + 6 - JsDay(d)
    ensures JsDay(e) != 6
  {
    JsDayShift(d, e, DayNumber(e) - DayNumber(d));
  }

  /** No day from `from` up to `to`, exclusive, is a Saturday. */
  ghost predicate SaturdayFree(from: Date, to: Date) {
    forall e: Date ::
      (1 <= e.month <= 12 && 1 <= from.month <= 12 && 1 <= to.month <= 12
       && DayNumber(from) <= DayNumber(e) < DayNumber(to)) ==> JsDay(e) != 6
  }

  /** The Saturday `6 - JsDay(d)` days after `d` is the first Saturday on or after `d`. */
  lemma SaturdayOf(t: DateTime)
    requires ValidTime(t)
    ensures var s := AddDays(t.date, 6 - JsDay(t.date));
            ValidTime(DateTime(s, 23, 59, 59, 999000)) && JsDay(s) == 6
            && 0 <= DayNumber(s) - DayNumber(t.date) <= 6 && SaturdayFree(t.date, s)
  {
    JsDayShift(t.date, AddDays(t.date, 6 - JsDay(t.date)), 6 - JsDay(t.date));
    NoSaturdayBefore(t.date);
  }

  lemma NoSaturdayBefore(d: Date)
    requires ValidDate(d)
    ensures SaturdayFree(d, AddDays(d, 6 - JsDay(d)))
  {
    var s := AddDays(d, 6 - JsDay(d));
    forall e: Date | 1 <= e.month <= 12 && DayNumber(d) <= DayNumber(e) < DayNumber(s) ensures JsDay(e) != 6 {
      BeforeSaturday(d, e);
    }
  }

  /**
   * `getEndOfWeek`: a copy of the date moved forward by `6 - getDay()` days to Saturday, its clock
   * set to 23:59:59.999; it is the first Saturday on or after the date.
   */
  function WeekEnd(t: DateTime): (r: DateTime)
    requires ValidTime(t)
    ensures ValidTime(r) && JsDay(r.date) == 6
    ensures 0 <= DayNumber(r.date) - DayNumber(t.date) <= 6 && SaturdayFree(t.date, r.date)
    ensures r.hour == 23 && r.minute == 59 && r.second == 59 && r.micro == 999000
  {
    SaturdayOf(t);
    DateTime(AddDays(t.date, 6 - JsDay(t.date)), 23, 59, 59, 999000)
  }

  // ---- The tabs ----

  predicate Unsubmitted(r: Report) {
    r.status == "empty" || r.status == "incomplete"
  }

  /** `new Date(report.start_time) > new Date()`; a weekly row has no start and is never upcoming. */
  predicate Upcoming(r: Report, now: DateTime)
    requires ValidTime(now)
  {
    r.start.Some? && ValidTime(r.start.value) && Instant(r.start.value) > Instant(now)
  }

  /** The date the week is taken from: the week's midnight for a weekly row, the lesson's end otherwise. */
  function BaseDate(r: Report, weekly: bool): Option<DateTime> {
    if weekly then Some(DateTime(r.week, 0, 0, 0, 0)) else r.end
  }

  /** The end of the report's week lies more than seven days before now; an unreadable date is never overdue. */
  predicate Overdue(r: Report, weekly: bool, now: DateTime)
    requires ValidTime(now)
  {
    var base := BaseDate(r, weekly);
    base.Some? && ValidTime(base.value) && Instant(WeekEnd(base.value)) < Instant(AddDaysTime(now, -7))
  }

  /** Whether the tab `view` lists a report. */
  predicate InTab(view: string, r: Report, weekly: bool, upcomingVisible: bool, now: DateTime)
    requires ValidTime(now)
  {
    if view == "unsubmitted" then Unsubmitted(r) && (upcomingVisible || !Upcoming(r, now))
    else if view == "submitted" then r.status == "submitted" && (upcomingVisible || !Upcoming(r, now))
    else if view == "overdue" then Unsubmitted(r) && Overdue(r, weekly, now)
    else if view == "safeguarding" then r.safeguarding
    else false
  }

  /** The filter of the effect: the reports of the tab, in the order received. */
  function TabReports(reports: seq<Report>, view: string, weekly: bool, upcomingVisible: bool, now: DateTime): (r: seq<Report>)
    requires ValidTime(now)
    ensures |r| <= |reports|
    ensures forall x :: x in r <==> x in reports && InTab(view, x, weekly, upcomingVisible, now)
  {
    if reports == [] then []
    else
      var last := reports[|reports| - 1];
      TabReports(reports[..|reports| - 1], view, weekly, upcomingVisible, now)
      + (if InTab(view, last, weekly, upcomingVisible, now) then [last] else [])
  }

  /** A tab lists each of its reports as often as it was received, and keeps their order. */
  lemma {:induction false} TabReportsCounts(reports: seq<Report>, view: string, weekly: bool, upcomingVisible: bool,
                                            now: DateTime, x: Report)
    requires ValidTime(now)
    ensures multiset(TabReports(reports, view, weekly, upcomingVisible, now))[x] ==
            if InTab(view, x, weekly, upcomingVisible, now) then multiset(reports)[x] else 0
    decreases |reports|
  {
    if reports != [] {
      var init := reports[..|reports| - 1];
      TabReportsCounts(init, view, weekly, upcomingVisible, now, x);
      assert reports == init + [reports[|reports| - 1]];
    }
  }

  /**
   * The overdue and safeguarding tabs ignore the upcoming switch, an unknown tab lists nothing,
   * and no report is both in the unsubmitted and the submitted tab.
   */
  lemma TabFacts(reports: seq<Report>, weekly: bool, now: DateTime, x: Report)
    requires ValidTime(now)
    ensures TabReports(reports, "overdue", weekly, true, now) == TabReports(reports, "overdue", weekly, false, now)
    ensures TabReports(reports, "safeguarding", weekly, true, now) == TabReports(reports, "safeguarding", weekly, false, now)
    ensures forall v :: v !in {"unsubmitted", "submitted", "overdue", "safeguarding"} ==> TabReports(reports, v, weekly, true, now) == []
    ensures !(InTab("unsubmitted", x, weekly, true, now) && InTab("submitted", x, weekly, true, now))
  {
    TabsIgnoreSwitch(reports, weekly, now);
  }

  lemma {:induction false} TabsIgnoreSwitch(reports: seq<Report>, weekly: bool, now: DateTime)
    requires ValidTime(now)
    ensures TabReports(reports, "overdue", weekly, true, now) == TabReports(reports, "overdue", weekly, false, now)
    ensures TabReports(reports, "safeguarding", weekly, true, now) == TabReports(reports, "safeguarding", weekly, false, now)
    decreases |reports|
  {
    if reports != [] {
      TabsIgnoreSwitch(reports[..|reports| - 1], weekly, now);
    }
  }

  /**
   * A lesson whose report is overdue has ended, so it is listed under "unsubmitted" too, even
   * with upcoming reports hidden (a JavaScript date holds whole milliseconds).
   */
  lemma OverdueIsPast(r: Report, now: DateTime)
    requires ValidTime(now) && r.start.Some? && r.end.Some? && ValidTime(r.start.value) && ValidTime(r.end.value)
    requires Instant(r.start.value) <= Instant(r.end.value) && r.end.value.micro <= 999000
    requires InTab("overdue", r, false, false, now)
    ensures InTab("unsubmitted", r, false, false, now)
  {
    var e := r.end.value;
    var w := WeekEnd(e);
    assert TimeOfDay(e) <= TimeOfDay(w);
    assert Instant(e) <= Instant(w);
    assert Instant(AddDaysTime(now, -7)) < Instant(now);
  }

  /** A weekly row has no start time, so the upcoming switch does not hide it. */
  lemma WeeklyRowsNeverUpcoming(r: Report, now: DateTime, view: string)
    requires ValidTime(now) && r.start.None? && (view == "unsubmitted" || view == "submitted")
    ensures InTab(view, r, true, false, now) == InTab(view, r, true, true, now)
  {
  }

  /** The tabs offered: admins start with the submitted reports, tutors with their unsubmitted ones. */
  function TabKeys(role: string): (r: seq<string>)
    ensures "unsubmitted" in r && "submitted" in r
    ensures ("overdue" in r || "safeguarding" in r) <==> role == "admin"
  {
    if role == "admin" then ["submitted", "overdue", "safeguarding", "unsubmitted"] else ["unsubmitted", "submitted"]
  }

  /** The initial tab. */
  function DefaultTab(role: string): (r: string)
    ensures r in TabKeys(role)
    ensures r == "unsubmitted" <==> role == "tutor"
  {
    if role == "tutor" then "unsubmitted" else "submitted"
  }

  // ---- Opening a report ----

  /** The address parameters (`reportId`, or `reportInvoiceId` and `reportStudentId`) of the open report. */
  datatype Address = Address(reportId: Option<string>, invoiceId: Option<string>, studentId: Option<string>)

  /** A value printed in a path: the number, or `null` for a missing one. */
  function PathText(v: Option<nat>): string {
    if v.Some? then DateText.NatText(v.value) else "null"
  }

  /**
   * `handleOpenReport`: the address it navigates to, as the parameters the route reads back from
   * `/reports/invoice/:reportInvoiceId/student/:reportStudentId` or `/reports/:reportId`.
   */
  function OpenReport(weeklyView: bool, r: Report): (a: Address)
    ensures weeklyView ==> a.reportId.None? && a.invoiceId.Some? && a.studentId.Some?
    ensures !weeklyView ==> a.reportId.Some? && a.invoiceId.None? && a.studentId.None?
  {
    if weeklyView then Address(None, Some(PathText(Some(r.invoice))), Some(PathText(Some(r.student))))
    else Address(Some(PathText(r.id)), None, None)
  }

  /** `parseInt(param)` compared with `===` to a number: `NaN` equals nothing. */
  predicate ParamIs(param: string, n: int) {
    LessonEditor.ParseInt(Some(param)) == LessonEditor.Number(n)
  }

  /** The selection after the effect. `Reset(error)` is the all-null selection, with the error message when `error`. */
  datatype Selection = Selected(report: Report) | Reset(error: bool)

  /** JavaScript truthiness of a route parameter. */
  predicate Given(param: Option<string>) {
    param.Some? && param.value != ""
  }

  /**
   * The selected report: looked up by id among the lesson-based reports, or by invoice and
   * student among the weekly rows; reset, with an error, when the address names none.
   */
  function SelectReport(lessonBased: seq<Report>, weekly: seq<Report>, a: Address): (s: Selection)
    ensures s.Selected? ==> (Given(a.reportId) ==> s.report in lessonBased) && (!Given(a.reportId) ==> s.report in weekly)
    ensures s == Reset(false) <==> !Given(a.reportId) && !(Given(a.invoiceId) && Given(a.studentId))
  {
    if Given(a.reportId) then
      var id := a.reportId.value;
      var found := Find(lessonBased, (x: Report) => x.id.Some? && ParamIs(id, x.id.value));
      if found.Some? then Selected(found.value) else Reset(true)
    else if Given(a.invoiceId) && Given(a.studentId) then
      var inv, st := a.invoiceId.value, a.studentId.value;
      var found := Find(weekly, (x: Report) => ParamIs(inv, x.invoice) && ParamIs(st, x.student));
      if found.Some? then Selected(found.value) else Reset(true)
    else Reset(false)
  }

  /**
   * Opening a lesson-based report and reading the address back selects it again, when report ids
   * are distinct.
   */
  lemma OpenThenSelect(lessonBased: seq<Report>, weekly: seq<Report>, r: Report)
    requires r in lessonBased && r.id.Some?
    requires forall x :: x in lessonBased && x.id == r.id ==> x == r
    ensures SelectReport(lessonBased, weekly, OpenReport(false, r)) == Selected(r)
  {
    var id := PathText(r.id);
    LessonEditor.ParseIntNatText(r.id.value);
    assert id != "" && ParamIs(id, r.id.value);
    var p := (x: Report) => x.id.Some? && ParamIs(id, x.id.value);
    forall x | x in lessonBased && p(x) ensures x == r {
      assert LessonEditor.ParseInt(Some(id)) == LessonEditor.Number(x.id.value);
    }
  }

  /** Opening a weekly row and reading the address back selects it again, when rows differ in invoice or student. */
  lemma OpenWeeklyThenSelect(lessonBased: seq<Report>, weekly: seq<Report>, r: Report)
    requires r in weekly
    requires forall x :: x in weekly && x.invoice == r.invoice && x.student == r.student ==> x == r
    ensures SelectReport(lessonBased, weekly, OpenReport(true, r)) == Selected(r)
  {
    var inv, st := PathText(Some(r.invoice)), PathText(Some(r.student));
    LessonEditor.ParseIntNatText(r.invoice);
    LessonEditor.ParseIntNatText(r.student);
    assert inv != "" && st != "";
  }
}
