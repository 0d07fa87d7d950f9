/**
 * `format_reports` (Backend/main.py:583-640): the report rows of a query become the
 * lesson-based list, with titles and texts added, and the weekly list, one row per invoice and
 * student holding the ids of that student's reports in the invoice's week. Date and time texts
 * (`week_short`, `lesson_time_short`) need the time zone and are carried as given.
 */
module WeeklyReports {
  import opened Wrappers
  import opened ReportStatus
  import opened Formatters

  /** A row of the reports query. `window` is the already formatted text of the lesson's times. */
  datatype ReportRow = ReportRow(
    id: nat, invoice: nat, student: int, studentName: string, tutorName: string, status: string,
    safeguarding: bool, attendance: Option<string>, code: Option<string>, window: string)

  datatype LessonReport = LessonReport(
    row: ReportRow, key: nat, idExt: string, title: string, invoiceTitle: string, statusText: string,
    attendanceText: string)

  datatype WeeklyReport = WeeklyReport(
    invoice: nat, student: int, studentName: string, tutorName: string, invoiceTitle: string,
    reportIds: seq<nat>, safeguarding: bool, status: Option<string>, statusText: Option<string>)

  /** The fields the first loop adds to a report. */
  function Formatted(r: ReportRow): (f: LessonReport)
    ensures f.row == r && f.key == r.id
  {
    LessonReport(r, r.id, IdText(r.id), ReportTitle(r.id), InvoiceTitle(r.invoice), ReportStatusText(r.status),
                 CompleteAttendanceStatus(r.attendance, r.code, r.window))
  }

  // ---- The weekly rows, as the first loop builds them ----

  /** `weekly_key`: the invoice and the student's NAME. */
  function WeeklyKey(r: ReportRow): (nat, string) {
    (r.invoice, r.studentName)
  }

  function Seen(rs: seq<ReportRow>): set<(nat, string)> {
    set r | r in rs :: WeeklyKey(r)
  }

  function NewWeekly(r: ReportRow): WeeklyReport {
    WeeklyReport(r.invoice, r.student, r.studentName, r.tutorName, InvoiceTitle(r.invoice), [r.id], r.safeguarding, None, None)
  }

  /** The `else` branch on one weekly row: matched by invoice and student ID. */
  function AddId(w: WeeklyReport, r: ReportRow): WeeklyReport {
    if w.invoice == r.invoice && w.student == r.student then w.(reportIds := w.reportIds + [r.id]) else w
  }

  /** The `else` branch over the whole list. */
  function AddToMatching(ws: seq<WeeklyReport>, r: ReportRow): (rs: seq<WeeklyReport>)
    ensures |rs| == |ws|
  {
    seq(|ws|, k requires 0 <= k < |ws| => AddId(ws[k], r))
  }

  /** One report seen by the first loop. */
  function GroupStep(ws: seq<WeeklyReport>, seen: set<(nat, string)>, r: ReportRow): seq<WeeklyReport> {
    if WeeklyKey(r) in seen then AddToMatching(ws, r) else ws + [NewWeekly(r)]
  }

  /** The weekly list after the first loop has seen `rs`. */
  function Grouped(rs: seq<ReportRow>): seq<WeeklyReport> {
    if |rs| == 0 then []
    else
      var init := rs[..|rs| - 1];
      GroupStep(Grouped(init), Seen(init), rs[|rs| - 1])
  }

  /** `for weekly_report in formatted_reports['weekly']: if ...: append`. */
  method AppendToMatching(weekly: seq<WeeklyReport>, r: ReportRow) returns (ws: seq<WeeklyReport>)
    ensures ws == AddToMatching(weekly, r)
  {
    ws := weekly;
    var j := 0;
    while j < |ws|
      invariant 0 <= j <= |ws| == |weekly|
      invariant forall k :: 0 <= k < j ==> ws[k] == AddId(weekly[k], r)
      invariant forall k :: j <= k < |ws| ==> ws[k] == weekly[k]
    {
      if ws[j].invoice == r.invoice && ws[j].student == r.student {
        ws := ws[j := ws[j].(reportIds := ws[j].reportIds + [r.id])];
      }
      j := j + 1;
    }
    assert forall k :: 0 <= k < |weekly| ==> ws[k] == AddToMatching(weekly, r)[k];
  }

  // ---- The second loop ----

  /** `statuses`: the set of statuses of the lesson-based reports of that invoice and student id. */
  function StatusesOf(lessonBased: seq<LessonReport>, invoice: nat, student: int): set<string> {
    set f | f in lessonBased && f.row.invoice == invoice && f.row.student == student :: f.row.status
  }

  function WithStatus(w: WeeklyReport, lessonBased: seq<LessonReport>): WeeklyReport {
    var status := WeeklyStatus(StatusesOf(lessonBased, w.invoice, w.student));
    w.(status := Some(status), statusText := Some(ReportStatusText(status)))
  }

  /** One more report seen by the first loop. */
  lemma GroupedSnoc(rs: seq<ReportRow>, i: int)
    requires 0 <= i < |rs|
    ensures Seen(rs[..i + 1]) == Seen(rs[..i]) + {WeeklyKey(rs[i])}
    ensures Grouped(rs[..i + 1]) == GroupStep(Grouped(rs[..i]), Seen(rs[..i]), rs[i])
  {
    var p := rs[..i + 1];
    assert p[..i] == rs[..i] && p[i] == rs[i];
    assert p == rs[..i] + [rs[i]];
  }

  /** The first loop of `format_reports`. */
  method GroupReports(reports: seq<ReportRow>) returns (lessonBased: seq<LessonReport>, weekly: seq<WeeklyReport>)
    ensures |lessonBased| == |reports| && forall i :: 0 <= i < |reports| ==> lessonBased[i] == Formatted(reports[i])
    ensures weekly == Grouped(reports)
  {
    lessonBased, weekly := [], [];
    var seen: set<(nat, string)> := {};
    var i := 0;
    while i < |reports|
      invariant 0 <= i <= |reports|
      invariant |lessonBased| == i && forall j :: 0 <= j < i ==> lessonBased[j] == Formatted(reports[j])
      invariant weekly == Grouped(reports[..i]) && seen == Seen(reports[..i])
    {
      var r := reports[i];
      GroupedSnoc(reports, i);
      lessonBased := lessonBased + [Formatted(r)];
      if WeeklyKey(r) !in seen {
        weekly := weekly + [NewWeekly(r)];
      } else {
        weekly := AppendToMatching(weekly, r);
      }
      seen := seen + {WeeklyKey(r)};
      i := i + 1;
    }
    assert reports[..i] == reports;
  }

  /** The second loop of `format_reports`: each weekly row gets the status of its lessons' reports. */
  method SetWeeklyStatuses(grouped: seq<WeeklyReport>, lessonBased: seq<LessonReport>) returns (weekly: seq<WeeklyReport>)
    ensures |weekly| == |grouped| && forall k :: 0 <= k < |grouped| ==> weekly[k] == WithStatus(grouped[k], lessonBased)
  {
    weekly := grouped;
    var k := 0;
    while k < |weekly|
      invariant 0 <= k <= |weekly| == |grouped|
      invariant forall j :: 0 <= j < k ==> weekly[j] == WithStatus(grouped[j], lessonBased)
      invariant forall j :: k <= j < |weekly| ==> weekly[j] == grouped[j]
    {
      var status := WeeklyStatus(StatusesOf(lessonBased, weekly[k].invoice, weekly[k].student));
      weekly := weekly[k := weekly[k].(status := Some(status), statusText := Some(ReportStatusText(status)))];
      k := k + 1;
    }
  }

  /** `format_reports`. */
  method FormatReports(reports: seq<ReportRow>) returns (lessonBased: seq<LessonReport>, weekly: seq<WeeklyReport>)
    ensures |lessonBased| == |reports| && forall i :: 0 <= i < |reports| ==> lessonBased[i] == Formatted(reports[i])
    ensures |weekly| == |Grouped(reports)|
    ensures forall k :: 0 <= k < |weekly| ==> weekly[k] == WithStatus(Grouped(reports)[k], lessonBased)
  {
    var grouped;
    lessonBased, grouped := GroupReports(reports);
    weekly := SetWeeklyStatuses(grouped, lessonBased);
  }

  // ---- What the weekly list holds ----

  /** The key a weekly row was created under. */
  function RowKey(w: WeeklyReport): (nat, string) {
    (w.invoice, w.studentName)
  }

  lemma SeenLast(rs: seq<ReportRow>)
    requires |rs| > 0
    ensures Seen(rs) == Seen(rs[..|rs| - 1]) + {WeeklyKey(rs[|rs| - 1])}
  {
    assert rs == rs[..|rs| - 1] + [rs[|rs| - 1]];
  }

  /** One weekly row per key seen: the rows' keys are exactly the keys of the reports, none twice. */
  lemma {:induction false} GroupedKeys(rs: seq<ReportRow>)
    ensures forall key :: key in Seen(rs) <==> exists k :: 0 <= k < |Grouped(rs)| && RowKey(Grouped(rs)[k]) == key
    ensures forall j, k :: 0 <= j < k < |Grouped(rs)| ==> RowKey(Grouped(rs)[j]) != RowKey(Grouped(rs)[k])
    decreases |rs|
  {
    if |rs| > 0 {
      var init, last := rs[..|rs| - 1], rs[|rs| - 1];
      GroupedKeys(init);
      SeenLast(rs);
      var ws, g := Grouped(init), Grouped(rs);
      if WeeklyKey(last) in Seen(init) {
        assert forall k :: 0 <= k < |ws| ==> RowKey(g[k]) == RowKey(ws[k]);
      } else {
        assert g == ws + [NewWeekly(last)];
        assert RowKey(g[|ws|]) == WeeklyKey(last);
        assert forall k :: 0 <= k < |ws| ==> RowKey(g[k]) == RowKey(ws[k]);
      }
    }
  }

  /** Every id in a weekly row is the id of a report of that row's invoice and student; no row is empty. */
  lemma {:induction false} GroupedSound(rs: seq<ReportRow>)
    ensures forall k :: 0 <= k < |Grouped(rs)| ==> |Grouped(rs)[k].reportIds| > 0
    ensures forall k, id :: 0 <= k < |Grouped(rs)| && id in Grouped(rs)[k].reportIds ==>
              exists r :: r in rs && r.id == id && r.invoice == Grouped(rs)[k].invoice && r.student == Grouped(rs)[k].student
    decreases |rs|
  {
    if |rs| > 0 {
      var init, last := rs[..|rs| - 1], rs[|rs| - 1];
      GroupedSound(init);
      var ws, g := Grouped(init), Grouped(rs);
      assert forall r :: r in init ==> r in rs;
      forall k, id | 0 <= k < |g| && id in g[k].reportIds
        ensures exists r :: r in rs && r.id == id && r.invoice == g[k].invoice && r.student == g[k].student
      {
        if k < |ws| && id in ws[k].reportIds {
          var r :| r in init && r.id == id && r.invoice == ws[k].invoice && r.student == ws[k].student;
          assert r in rs;
        } else {
          assert last in rs && last.id == id && last.invoice == g[k].invoice && last.student == g[k].student;
        }
      }
    }
  }

  /** Within one invoice, reports with the same student name are of the same student. */
  predicate NamesIdentify(rs: seq<ReportRow>) {
    forall a, b :: a in rs && b in rs && a.invoice == b.invoice && a.studentName == b.studentName ==> a.student == b.student
  }

  /** When names identify students, every report's id is in the row of its invoice and student. */
  lemma {:induction false} GroupedComplete(rs: seq<ReportRow>)
    requires NamesIdentify(rs)
    ensures forall r :: r in rs ==>
              exists k :: 0 <= k < |Grouped(rs)| && Grouped(rs)[k].invoice == r.invoice && Grouped(rs)[k].student == r.student
                          && r.id in Grouped(rs)[k].reportIds
    decreases |rs|
  {
    if |rs| > 0 {
      var init, last := rs[..|rs| - 1], rs[|rs| - 1];
      assert rs == init + [last];
      GroupedComplete(init);
      var ws, g := Grouped(init), Grouped(rs);
      forall r | r in rs
        ensures exists k :: 0 <= k < |g| && g[k].invoice == r.invoice && g[k].student == r.student && r.id in g[k].reportIds
      {
        if r in init {
          var k :| 0 <= k < |ws| && ws[k].invoice == r.invoice && ws[k].student == r.student && r.id in ws[k].reportIds;
          if WeeklyKey(last) in Seen(init) {
            assert g[k] == AddId(ws[k], last);
          } else {
            assert g == ws + [NewWeekly(last)];
            assert g[k] == ws[k];
          }
        } else if WeeklyKey(last) in Seen(init) {
          var r0 :| r0 in init && WeeklyKey(r0) == WeeklyKey(last);
          var k :| 0 <= k < |ws| && ws[k].invoice == r0.invoice && ws[k].student == r0.student && r0.id in ws[k].reportIds;
          assert r == last && r0.student == last.student;
          assert g[k] == AddId(ws[k], last);
        } else {
          assert r == last;
          assert g == ws + [NewWeekly(last)];
          assert g[|ws|] == NewWeekly(last);
        }
      }
      assert g == Grouped(rs);
    }
  }

  /**
   * Rows are keyed by student NAME but filled by student ID: a second student of the same name
   * in the same invoice starts no row of their own, and their report is in no row.
   */
  lemma SharedNameLosesReport()
    ensures var a := ReportRow(1, 7, 10, "Sam", "Tutor", "empty", false, None, None, "");
            var b := ReportRow(2, 7, 11, "Sam", "Tutor", "empty", false, None, None, "");
            |Grouped([a, b])| == 1 && 2 !in Grouped([a, b])[0].reportIds && !NamesIdentify([a, b])
  {
    var a := ReportRow(1, 7, 10, "Sam", "Tutor", "empty", false, None, None, "");
    var b := ReportRow(2, 7, 11, "Sam", "Tutor", "empty", false, None, None, "");
    assert [a, b][..1] == [a];
    assert [a][..0] == [];
    assert Grouped([a]) == [NewWeekly(a)];
    assert WeeklyKey(b) in Seen([a]);
  }

  /** The reports the second loop gathers for a row are those of the row's invoice and student id. */
  lemma {:induction false} StatusesOfFormatted(rs: seq<ReportRow>, lessonBased: seq<LessonReport>, invoice: nat, student: int)
    requires |lessonBased| == |rs| && forall i :: 0 <= i < |rs| ==> lessonBased[i] == Formatted(rs[i])
    ensures StatusesOf(lessonBased, invoice, student) == set r | r in rs && r.invoice == invoice && r.student == student :: r.status
  {
    forall s | s in StatusesOf(lessonBased, invoice, student)
      ensures exists r :: r in rs && r.invoice == invoice && r.student == student && r.status == s
    {
      var f :| f in lessonBased && f.row.invoice == invoice && f.row.student == student && f.row.status == s;
      var i :| 0 <= i < |lessonBased| && lessonBased[i] == f;
      assert rs[i] in rs;
    }
    forall r | r in rs && r.invoice == invoice && r.student == student
      ensures r.status in StatusesOf(lessonBased, invoice, student)
    {
      var i :| 0 <= i < |rs| && rs[i] == r;
      assert lessonBased[i] in lessonBased;
    }
  }

  /** The reports of one invoice and student. */
  function ReportsOf(rs: seq<ReportRow>, invoice: nat, student: int): set<ReportRow> {
    set r | r in rs && r.invoice == invoice && r.student == student
  }

  /** A non-empty set of reports has the single status `x` exactly when each of them has it. */
  lemma SingleStatus(mine: set<ReportRow>, x: string)
    requires mine != {}
    ensures (set r | r in mine :: r.status) == {x} <==> forall r :: r in mine ==> r.status == x
  {
    var statuses := set r | r in mine :: r.status;
    var r0 :| r0 in mine;
    assert r0.status in statuses;
    if forall r :: r in mine ==> r.status == x {
      assert forall s :: s in statuses ==> s == x;
    } else {
      var r1 :| r1 in mine && r1.status != x;
      assert r1.status in statuses;
    }
  }

  /** The weekly summary of a non-empty set of reports, in terms of the reports themselves. */
  lemma WeeklyStatusOfReports(mine: set<ReportRow>)
    requires mine != {}
    ensures var st := WeeklyStatus(set r | r in mine :: r.status);
            (st == "submitted" <==> forall r :: r in mine ==> r.status == "submitted")
            && (st == "empty" <==> forall r :: r in mine ==> r.status == "empty")
            && (st == "incomplete" <==>
                  !(forall r :: r in mine ==> r.status == "submitted") && !(forall r :: r in mine ==> r.status == "empty"))
  {
    var statuses := set r | r in mine :: r.status;
    var r0 :| r0 in mine;
    assert r0.status in statuses;
    WeeklyStatusCases(statuses);
    SingleStatus(mine, "submitted");
    SingleStatus(mine, "empty");
  }

  /** Every weekly row has at least one report of its invoice and student. */
  lemma RowHasReport(rs: seq<ReportRow>, k: int)
    requires 0 <= k < |Grouped(rs)|
    ensures ReportsOf(rs, Grouped(rs)[k].invoice, Grouped(rs)[k].student) != {}
  {
    var w := Grouped(rs)[k];
    GroupedSound(rs);
    assert w.reportIds[0] in w.reportIds;
    var r0 :| r0 in rs && r0.id == w.reportIds[0] && r0.invoice == w.invoice && r0.student == w.student;
    assert r0 in ReportsOf(rs, w.invoice, w.student);
  }

  /**
   * A weekly row's status: 'submitted' when every report of its invoice and student is
   * submitted, 'empty' when every one is empty, 'incomplete' otherwise.
   */
  lemma WeeklyRowStatus(rs: seq<ReportRow>, lessonBased: seq<LessonReport>, k: int)
    requires |lessonBased| == |rs| && forall i :: 0 <= i < |rs| ==> lessonBased[i] == Formatted(rs[i])
    requires 0 <= k < |Grouped(rs)|
    ensures var w := Grouped(rs)[k];
            var mine := ReportsOf(rs, w.invoice, w.student);
            var st := WithStatus(w, lessonBased).status;
            mine != {}
            && (st == Some("submitted") <==> forall r :: r in mine ==> r.status == "submitted")
            && (st == Some("empty") <==> forall r :: r in mine ==> r.status == "empty")
            && (st == Some("incomplete") <==>
                  !(forall r :: r in mine ==> r.status == "submitted") && !(forall r :: r in mine ==> r.status == "empty"))
  {
    var w := Grouped(rs)[k];
    var mine := ReportsOf(rs, w.invoice, w.student);
    RowHasReport(rs, k);
    StatusesOfFormatted(rs, lessonBased, w.invoice, w.student);
    var statuses := StatusesOf(lessonBased, w.invoice, w.student);
    assert statuses == set r | r in mine :: r.status;
    WeeklyStatusOfReports(mine);
  }
}
