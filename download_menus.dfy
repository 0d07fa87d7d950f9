/**
 * The two PDF download menus: the timetable menu of the timetable page
 * (WebApp/src/components/Timetable/DownloadMenu.jsx) and the attendance report menu of a student's
 * settings row (src/components/Settings/DownloadAttendanceReportMenu.jsx). Both turn a choice of
 * "this week", "this month" or a picked range into the start and end the server receives; the
 * server widens a timetable's range to whole weeks and compares dates, while the attendance report
 * keeps the range as sent and compares lesson start times with it (Backend/main.py:2842-2863).
 */
module DownloadMenus {
  import opened Wrappers
  import opened CivilTime
  import opened Payload
  import opened Choices
  import Formatters

  /** The date range radio: "week", "month" or "custom". */
  datatype Span = Week | Month | Custom

  /**
   * A date sent to the server: `toISOString()` of a local time, or a picked date formatted
   * `YYYY-MM-DDTHH:mm:ss`. The server parses both to the same naive date-time.
   */
  datatype Stamp = Iso(at: DateTime) | Picked(at: DateTime)

  /**
   * `new Date(year, monthIndex, day)`: an out-of-range month index carries into the year, and the
   * day counts from the first of that month (day 0 is the day before it).
   */
  function JsDate(year: int, monthIndex: int, day: int): (r: Date)
    ensures ValidDate(r)
  {
    var k := 12 * year + monthIndex;
    AddDays(Date(k / 12, k % 12 + 1, 1), day - 1)
  }

  function Midnight(d: Date): DateTime {
    DateTime(d, 0, 0, 0, 0)
  }

  /** The start and end both menus send for a span; a custom span needs a picked range. */
  function Dates(span: Span, now: DateTime, custom: Option<(DateTime, DateTime)>): (r: (Stamp, Stamp))
    requires ValidTime(now)
    requires span == Custom ==> custom.Some?
    ensures span == Week ==> r == (Iso(now), Iso(now))
    ensures span == Custom ==> r == (Picked(custom.value.0), Picked(custom.value.1))
  {
    match span
    case Week => (Iso(now), Iso(now))
    case Month =>
      var y, m0 := now.date.year, now.date.month - 1;
      (Iso(Midnight(JsDate(y, m0, 1))), Iso(Midnight(JsDate(y, m0 + 1, 0))))
    case Custom => (Picked(custom.value.0), Picked(custom.value.1))
  }

  /** `new Date(y, m - 1, 1)` is the first of month `m`. */
  lemma JsFirstDay(y: int, m: int)
    requires 1 <= m <= 12
    ensures JsDate(y, m - 1, 1) == Date(y, m, 1)
  {
    assert (12 * y + (m - 1)) / 12 == y && (12 * y + (m - 1)) % 12 == m - 1;
  }

  /** `new Date(y, m, 0)`, day 0 of the next month, is the last day of month `m`. */
  lemma JsLastDay(y: int, m: int)
    requires 1 <= m <= 12
    ensures JsDate(y, m, 0) == Date(y, m, DaysInMonth(y, m))
  {
    var last := Date(y, m, DaysInMonth(y, m));
    var k := 12 * y + m;
    if m == 12 {
      assert k / 12 == y + 1 && k % 12 == 0;
    } else {
      assert k / 12 == y && k % 12 == m;
    }
    assert NextDay(last) == Date(k / 12, k % 12 + 1, 1);
    DayNumberInjective(JsDate(y, m, 0), last);
  }

  /**
   * "This month" runs from midnight on the first to midnight on the last day of the current
   * month, February 29th included in a leap year.
   */
  lemma MonthIsCurrentMonth(now: DateTime, custom: Option<(DateTime, DateTime)>)
    requires ValidTime(now)
    ensures var y, m := now.date.year, now.date.month;
            Dates(Month, now, custom) == (Iso(Midnight(Date(y, m, 1))), Iso(Midnight(Date(y, m, DaysInMonth(y, m)))))
  {
    JsFirstDay(now.date.year, now.date.month);
    JsLastDay(now.date.year, now.date.month);
  }

  // ---------------------------------------------------------------------------------------------
  // Timetable menu
  // ---------------------------------------------------------------------------------------------

  /** A tutor or student as the option lists see them. */
  datatype Person = Person(id: Json, name: string)

  function AsChoices(people: seq<Person>): (r: seq<Choice<Json>>)
    ensures |r| == |people| && forall i :: 0 <= i < |people| ==> r[i] == Choice(people[i].id, people[i].name)
  {
    if people == [] then [] else [Choice(people[0].id, people[0].name)] + AsChoices(people[1..])
  }

  /** The options of the tutor or student select: one per record, sorted by name. */
  function PeopleOptions(people: seq<Person>): (r: seq<Choice<Json>>)
    ensures SortedByLabel(r) && multiset(r) == multiset(AsChoices(people))
  {
    SortByLabel(AsChoices(people))
  }

  /** The body of `POST /timetable-pdf`. */
  datatype TimetableRequest = TimetableRequest(role: string, roleIds: seq<Json>, start: Stamp, end: Stamp)

  /** The timetable menu of one signed-in user, whose role and `role_id` it knows. */
  class TimetableMenu {
    const role: string
    const roleId: Json
    var open: bool
    var selectedRole: string
    var selectedIds: seq<Json>
    var span: Span
    var custom: Option<(DateTime, DateTime)>
    /** The requests sent to the server. */
    var sent: seq<TimetableRequest>

    constructor (role: string, roleId: Json)
      ensures this.role == role && this.roleId == roleId
      ensures !open && selectedRole == "tutor" && selectedIds == [] && span == Week && custom == None && sent == []
    {
      this.role := role;
      this.roleId := roleId;
      open := false;
      selectedRole := "tutor";
      selectedIds := [];
      span := Week;
      custom := None;
      sent := [];
    }

    /** The button is disabled for an admin who chose nobody, and for a custom span without dates. */
    predicate Disabled()
      reads this
    {
      (role == "admin" && |selectedIds| == 0) || (span == Custom && custom.None?)
    }

    /** The role radio: a new role starts with no one selected. */
    method ChooseRole(r: string)
      modifies this
      ensures selectedRole == r && selectedIds == []
      ensures open == old(open) && span == old(span) && custom == old(custom) && sent == old(sent)
    {
      selectedRole := r;
      selectedIds := [];
    }

    method ChooseIds(ids: seq<Json>)
      modifies this
      ensures selectedIds == ids
      ensures open == old(open) && selectedRole == old(selectedRole) && span == old(span)
      ensures custom == old(custom) && sent == old(sent)
    {
      selectedIds := ids;
    }

    method ChooseSpan(s: Span)
      modifies this
      ensures span == s
      ensures open == old(open) && selectedRole == old(selectedRole) && selectedIds == old(selectedIds)
      ensures custom == old(custom) && sent == old(sent)
    {
      span := s;
    }

    /** The range picker; clearing it gives `null`. */
    method PickDates(range: Option<(DateTime, DateTime)>)
      modifies this
      ensures custom == range
      ensures open == old(open) && selectedRole == old(selectedRole) && selectedIds == old(selectedIds)
      ensures span == old(span) && sent == old(sent)
    {
      custom := range;
    }

    /**
     * `handleCreateTimetablePDF`: an admin asks for the chosen role and people, anyone else for
     * their own timetable; the menu closes.
     */
    method Download(now: DateTime) returns (request: TimetableRequest)
      requires ValidTime(now) && !Disabled()
      modifies this
      ensures role == "admin" ==> request.role == selectedRole && request.roleIds == selectedIds
      ensures role != "admin" ==> request.role == role && request.roleIds == [roleId]
      ensures span == old(span) && custom == old(custom)
      ensures (request.start, request.end) == Dates(span, now, custom)
      ensures sent == old(sent) + [request] && !open
      ensures selectedRole == old(selectedRole) && selectedIds == old(selectedIds)
    {
      var range := Dates(span, now, custom);
      request := TimetableRequest(if role == "admin" then selectedRole else role,
                                  if role == "admin" then selectedIds else [roleId], range.0, range.1);
      sent := sent + [request];
      open := false;
    }
  }

  /**
   * "This week" asks for today only; the server widens it to the Monday and Sunday of today's
   * week and keeps lessons whose dates fall between them.
   */
  lemma TimetableWeekIsWholeWeek(now: DateTime, custom: Option<(DateTime, DateTime)>)
    requires ValidTime(now)
    ensures var r := Dates(Week, now, custom);
            var w := Formatters.TimetableRange(r.0.at, r.1.at);
            w.0.date == MondayOf(now.date) && w.1.date == SundayOf(now.date)
  {
  }

  // ---------------------------------------------------------------------------------------------
  // Attendance report menu
  // ---------------------------------------------------------------------------------------------

  /** The body of `POST /attendance-report-pdf`. */
  datatype AttendanceRequest =
    AttendanceRequest(studentId: Json, studentName: string, includeIncomplete: Option<bool>, start: Stamp, end: Stamp)

  predicate AttendanceDisabled(span: Span, custom: Option<(DateTime, DateTime)>) {
    span == Custom && custom.None?
  }

  /**
   * `handleCreateAttendanceReportPDF`: the row's student and the checkbox (`null` until it is
   * first ticked or unticked) go through unchanged, with the menu's range.
   */
  function AttendanceDownload(studentId: Json, studentName: string, includeIncomplete: Option<bool>,
                              span: Span, custom: Option<(DateTime, DateTime)>, now: DateTime): (r: AttendanceRequest)
    requires ValidTime(now) && !AttendanceDisabled(span, custom)
    ensures r.studentId == studentId && r.studentName == studentName && r.includeIncomplete == includeIncomplete
    ensures (r.start, r.end) == Dates(span, now, custom)
  {
    var range := Dates(span, now, custom);
    AttendanceRequest(studentId, studentName, includeIncomplete, range.0, range.1)
  }

  /** The attendance report counts the lessons whose start lies between the two dates, both included. */
  predicate InAttendanceReport(lessonStart: DateTime, start: DateTime, end: DateTime)
    requires ValidTime(lessonStart) && ValidTime(start) && ValidTime(end)
  {
    Instant(start) <= Instant(lessonStart) <= Instant(end)
  }

  /**
   * As written, "this week" sends today's instant as both ends and the attendance report does not
   * widen it, so the report keeps only a lesson starting at that very instant.
   */
  lemma AttendanceWeekIsOneInstant(now: DateTime, t: DateTime, studentId: Json, name: string, flag: Option<bool>)
    requires ValidTime(now) && ValidTime(t)
    ensures var r := AttendanceDownload(studentId, name, flag, Week, None, now);
            InAttendanceReport(t, r.start.at, r.end.at) <==> Instant(t) == Instant(now)
  {
  }

  /**
   * As written, "this month" ends at midnight on the last day, so a lesson later on the last day
   * of the month is left out: on 2026-10-15 a lesson at 09:00 on October 31st is not counted.
   */
  lemma AttendanceMonthMissesLastDay()
    ensures var now := DateTime(Date(2026, 10, 15), 10, 0, 0, 0);
            var r := AttendanceDownload(JInt(1), "Ann", None, Month, None, now);
            !InAttendanceReport(DateTime(Date(2026, 10, 31), 9, 0, 0, 0), r.start.at, r.end.at)
  {
    MonthIsCurrentMonth(DateTime(Date(2026, 10, 15), 10, 0, 0, 0), None);
  }

  function EndOfDay(d: Date): DateTime {
    DateTime(d, 23, 59, 59, 999999)
  }

  /**
   * The range the attendance menu evidently means: the whole week of today, from Monday to
   * Sunday, or the whole current month, last day included.
   */
  function IntendedRange(span: Span, now: DateTime, custom: Option<(DateTime, DateTime)>): (r: (DateTime, DateTime))
    requires ValidTime(now)
    requires span == Custom ==> custom.Some?
    ensures span == Custom ==> r == custom.value
  {
    match span
    case Week => (Midnight(MondayOf(now.date)), EndOfDay(SundayOf(now.date)))
    case Month =>
      var y, m := now.date.year, now.date.month;
      (Midnight(Date(y, m, 1)), EndOfDay(Date(y, m, DaysInMonth(y, m))))
    case Custom => custom.value
  }

  /** Between midnight of one day and the end of another exactly when the date lies between them. */
  lemma WholeDays(t: DateTime, a: Date, b: Date)
    requires ValidTime(t) && ValidDate(a) && ValidDate(b)
    ensures InAttendanceReport(t, Midnight(a), EndOfDay(b)) <==> DayNumber(a) <= DayNumber(t.date) <= DayNumber(b)
  {
    assert 0 <= TimeOfDay(t) < 86400000000;
    assert TimeOfDay(EndOfDay(b)) == 86399999999;
  }

  /** With the intended range, the week report keeps exactly the lessons of today's week. */
  lemma IntendedWeekIsWholeWeek(now: DateTime, t: DateTime)
    requires ValidTime(now) && ValidTime(t)
    ensures var r := IntendedRange(Week, now, None);
            InAttendanceReport(t, r.0, r.1) <==> MondayOf(t.date) == MondayOf(now.date)
  {
    var mon := MondayOf(now.date);
    WholeDays(t, mon, SundayOf(now.date));
    if DayNumber(mon) <= DayNumber(t.date) <= DayNumber(mon) + 6 {
      SameWeekSameMonday(now.date, t.date);
    }
    if MondayOf(t.date) == mon {
      assert DayNumber(t.date) == DayNumber(mon) + Weekday(t.date);
    }
  }

  /** With the intended range, the month report keeps exactly the lessons of the current month. */
  lemma IntendedMonthIsWholeMonth(now: DateTime, t: DateTime)
    requires ValidTime(now) && ValidTime(t)
    ensures var r := IntendedRange(Month, now, None);
            InAttendanceReport(t, r.0, r.1) <==> t.date.year == now.date.year && t.date.month == now.date.month
  {
    var y, m := now.date.year, now.date.month;
    var first, last := Date(y, m, 1), Date(y, m, DaysInMonth(y, m));
    WholeDays(t, first, last);
    if MonthIndex(t.date) < MonthIndex(first) {
      MonthIndexOrder(t.date, first);
    } else if MonthIndex(last) < MonthIndex(t.date) {
      MonthIndexOrder(last, t.date);
    } else {
      assert MonthIndex(t.date) == MonthIndex(first);
      assert t.date.year == y && t.date.month == m;
    }
  }
}
