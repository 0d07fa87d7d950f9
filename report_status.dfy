/**
 * Report statuses and attendance texts (Backend/main.py:180-224, 619-638, 1290-1297). A lesson's
 * report is 'empty', 'incomplete' (saved as a draft) or 'submitted'; the weekly view and the
 * invoice view summarise several of them into one.
 */
module ReportStatus {
  import opened Wrappers

  // ---- Status and attendance texts ----

  predicate KnownReportStatus(status: string) {
    status == "incomplete" || status == "empty" || status == "submitted"
  }

  /** `get_report_status_text`. */
  function ReportStatusText(status: string): (r: string)
    ensures r == "Status unknown" <==> !KnownReportStatus(status)
    ensures status == "submitted" ==> r == "Submitted"
  {
    if status == "incomplete" then "Saved as draft"
    else if status == "empty" then "Not started"
    else if status == "submitted" then "Submitted"
    else "Status unknown"
  }

  /** Different known statuses read differently. */
  lemma ReportStatusTextInjective(a: string, b: string)
    requires KnownReportStatus(a) && KnownReportStatus(b) && a != b
    ensures ReportStatusText(a) != ReportStatusText(b)
  {
    var ta, tb := ReportStatusText(a), ReportStatusText(b);
    assert ta[0] != tb[0] || |ta| != |tb|;
  }

  /** The code map of `get_attendance_code_text`. */
  const AttendanceCodes: map<string, string> := map[
    "L" := "Arrived late", "D" := "Left early", "O" := "Unauthorised absence", "I" := "Illness",
    "M" := "Medical appointment", "C" := "Authorised absence", "N" := "No known reason", "T" := "Not on timetable"]

  /** `get_attendance_code_text(code)`: the code's description; a missing or unknown code reads as code N. */
  function AttendanceCodeText(code: Option<string>): (r: string)
    ensures r in AttendanceCodes.Values
    ensures code.Some? && code.value in AttendanceCodes ==> r == AttendanceCodes[code.value]
    ensures (code.None? || code.value !in AttendanceCodes) ==> r == AttendanceCodes["N"]
  {
    if code.Some? && code.value in AttendanceCodes then AttendanceCodes[code.value]
    else
      assert AttendanceCodes["N"] in AttendanceCodes.Values;
      "No known reason"
  }

  /** `lesson['actual_start_time'] or lesson['start_time']`: the recorded time if there is one. */
  function OrPlanned<T>(actual: Option<T>, planned: T): T {
    if actual.Some? then actual.value else planned
  }

  datatype AttendanceClass = Present | Absent | Disrupted | NotRecorded

  function ClassOf(status: Option<string>): AttendanceClass {
    if status == Some("present") then Present
    else if status == Some("absent") then Absent
    else if status == Some("disrupted") then Disrupted
    else NotRecorded
  }

  /**
   * `get_complete_attendance_status`. `window` is the text `format_lesson_datetime_object`
   * gives the disrupted lesson's times (the recorded ones where present, see `OrPlanned`).
   */
  function CompleteAttendanceStatus(status: Option<string>, code: Option<string>, window: string): (r: string)
    ensures ClassOf(status) == Absent ==> r == "Absent - " + AttendanceCodeText(code)
    ensures ClassOf(status) == Disrupted ==> r == "Disrupted (" + window + ") - " + AttendanceCodeText(code)
  {
    match ClassOf(status)
    case Present => "Present"
    case Absent => "Absent - " + AttendanceCodeText(code)
    case Disrupted => "Disrupted (" + window + ") - " + AttendanceCodeText(code)
    case NotRecorded => "Attendance not recorded"
  }

  /** Reading the class back from the text: by its first letter, then by "Disrupted"'s second. */
  function ClassOfText(text: string): AttendanceClass {
    if |text| < 2 then NotRecorded
    else if text[0] == 'P' then Present
    else if text[0] == 'A' && text[1] == 'b' then Absent
    else if text[0] == 'D' then Disrupted
    else NotRecorded
  }

  /** The attendance text always says which of the four cases the lesson is in. */
  lemma CompleteAttendanceStatusClass(status: Option<string>, code: Option<string>, window: string)
    ensures ClassOfText(CompleteAttendanceStatus(status, code, window)) == ClassOf(status)
  {
    var r := CompleteAttendanceStatus(status, code, window);
    match ClassOf(status)
    case Present =>
    case Absent => assert r[0] == 'A' && r[1] == 'b';
    case Disrupted => assert r[0] == 'D';
    case NotRecorded => assert r[0] == 'A' && r[1] == 't';
  }

  // ---- Summaries ----

  /** The weekly report status of `format_reports`, over the set of its lessons' statuses. */
  function WeeklyStatus(statuses: set<string>): string {
    if forall s :: s in statuses ==> s == "empty" then "empty"
    else if forall s :: s in statuses ==> s == "submitted" then "submitted"
    else "incomplete"
  }

  /** Over a week with at least one report: 'empty' and 'submitted' exactly when all agree, else 'incomplete'. */
  lemma WeeklyStatusCases(statuses: set<string>)
    requires statuses != {}
    ensures WeeklyStatus(statuses) == "empty" <==> statuses == {"empty"}
    ensures WeeklyStatus(statuses) == "submitted" <==> statuses == {"submitted"}
    ensures WeeklyStatus(statuses) == "incomplete" <==> statuses != {"empty"} && statuses != {"submitted"}
  {
    var x :| x in statuses;
    if forall s :: s in statuses ==> s == "empty" {
      assert statuses == {"empty"};
    } else if forall s :: s in statuses ==> s == "submitted" {
      assert statuses == {"submitted"};
    }
  }

  /** The per-student status of `get_invoice_lessons`, over the statuses of the lessons that have a report. */
  function StudentStatus(statuses: seq<string>): string {
    if forall i :: 0 <= i < |statuses| ==> statuses[i] == "submitted" then "submitted"
    else if "incomplete" in statuses || "submitted" in statuses then "incomplete"
    else "empty"
  }

  /** Only report statuses that are set (not `NULL`, not empty) are gathered. */
  function SetStatuses(reports: seq<Option<string>>): (r: seq<string>)
    ensures forall s :: s in r <==> s != "" && Some(s) in reports
  {
    if |reports| == 0 then []
    else (if reports[0].Some? && reports[0].value != "" then [reports[0].value] else []) + SetStatuses(reports[1..])
  }

  /**
   * With at least one report, 'submitted' means all are submitted, 'incomplete' that some work
   * has been saved or submitted but not all, and 'empty' that none has been started.
   */
  lemma StudentStatusCases(statuses: seq<string>)
    requires statuses != []
    ensures StudentStatus(statuses) == "submitted" <==> forall s :: s in statuses ==> s == "submitted"
    ensures StudentStatus(statuses) == "empty" <==> "incomplete" !in statuses && "submitted" !in statuses
    ensures StudentStatus(statuses) == "incomplete" <==>
              ("incomplete" in statuses || "submitted" in statuses) && exists s :: s in statuses && s != "submitted"
  {
    if !(forall i :: 0 <= i < |statuses| ==> statuses[i] == "submitted") {
      var i :| 0 <= i < |statuses| && statuses[i] != "submitted";
      assert statuses[i] in statuses;
    }
    assert statuses[0] in statuses;
  }

  /**
   * The two summaries disagree on a student or week with no report at all: `all([])` holds, so
   * the invoice view calls it 'submitted' while the weekly rule (tested 'empty' first) says 'empty'.
   */
  lemma NoReportsReadsSubmitted()
    ensures StudentStatus(SetStatuses([None, Some("")])) == "submitted"
    ensures WeeklyStatus({}) == "empty"
  {
    assert SetStatuses([None, Some("")]) == [];
  }
}
