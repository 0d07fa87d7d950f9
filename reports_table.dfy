/**
 * The reports table (src/components/Reports/ReportsTable.jsx): the status change a row's link or a
 * bulk button asks for, the selection it sends and clears, the badge of a status, the options of
 * each column filter, and the columns of each view.
 */
module ReportsTable {
  import opened Wrappers
  import opened ReportsPage
  import CivilTime
  import opened Listing

  // ---- Status changes ----

  /** The `data` of the update the table sends (with the report and invoice the hook is told about). */
  datatype StatusUpdate = StatusUpdate(reportId: Option<nat>, invoiceId: Option<nat>, status: string, reportIds: seq<nat>)

  /** The status a single report's link moves it to: back to draft when submitted, else submitted. */
  function Toggled(status: string): (r: string)
    ensures r == "incomplete" <==> status == "submitted"
    ensures r == "submitted" <==> status != "submitted"
  {
    if status == "submitted" then "incomplete" else "submitted"
  }

  /**
   * `handleUpdateReportStatus`: a bulk status wins over the report's own toggle, and the ids are
   * the explicit list when one is given (even an empty one), else the current selection.
   */
  function StatusRequest(report: Option<Report>, multipleStatus: Option<string>, multipleIds: Option<seq<nat>>,
                         selected: seq<nat>): (u: StatusUpdate)
    requires (multipleStatus.Some? && multipleStatus.value != "") || report.Some?
    ensures u.status == if multipleStatus.Some? && multipleStatus.value != "" then multipleStatus.value
                        else Toggled(report.value.status)
    ensures u.reportIds == if multipleIds.Some? then multipleIds.value else selected
    ensures u.reportId == (if report.Some? then report.value.id else None)
  {
    var status := if multipleStatus.Some? && multipleStatus.value != "" then multipleStatus.value else Toggled(report.value.status);
    StatusUpdate(if report.Some? then report.value.id else None, if report.Some? then Some(report.value.invoice) else None,
                 status, if multipleIds.Some? then multipleIds.value else selected)
  }

  /** The link of a row in the per-lesson view. */
  function RowToggle(r: Report, selected: seq<nat>): StatusUpdate {
    StatusRequest(Some(r), None, None, selected)
  }

  /** The link of a row in the weekly view: the row's status decides for all of its reports. */
  function WeeklyToggle(r: Report, selected: seq<nat>): StatusUpdate {
    StatusRequest(Some(r), Some(Toggled(r.status)), Some(r.reportIds), selected)
  }

  /** A row's link is greyed out and ignores clicks while some rows are selected. */
  predicate RowLinkEnabled(selected: seq<nat>) {
    selected == []
  }

  /**
   * Both views move a row to the same status; the weekly link sends the ids of all the row's
   * reports, and the per-lesson link, usable only with nothing selected, sends no ids (the hook then
   * updates the one report by its id).
   */
  lemma RowTogglesAgree(r: Report, selected: seq<nat>)
    requires RowLinkEnabled(selected)
    ensures RowToggle(r, selected).status == WeeklyToggle(r, selected).status == Toggled(r.status)
    ensures RowToggle(r, selected).reportIds == [] && RowToggle(r, selected).reportId == r.id
    ensures WeeklyToggle(r, selected).reportIds == r.reportIds
  {
  }

  /** The bulk button a tab shows while rows are selected, with the status it sets. */
  function BulkStatus(view: string, selected: seq<nat>): (r: Option<string>)
    ensures r.Some? <==> selected != [] && view in {"submitted", "overdue", "unsubmitted"}
    ensures r == Some("incomplete") <==> selected != [] && view == "submitted"
  {
    if selected == [] then None
    else if view == "submitted" then Some("incomplete")
    else if view == "overdue" || view == "unsubmitted" then Some("submitted")
    else None
  }

  /** Rows can be selected on every tab except "safeguarding". */
  predicate SelectionEnabled(view: string) {
    view != "safeguarding"
  }

  /** `selectedRows.flatMap((row) => row.report_ids)`. */
  function AllReportIds(rows: seq<Report>): (ids: seq<nat>)
    ensures forall id :: id in ids <==> exists k :: 0 <= k < |rows| && id in rows[k].reportIds
  {
    if rows == [] then []
    else
      var rest := AllReportIds(rows[1..]);
      assert forall id :: (exists k :: 1 <= k < |rows| && id in rows[k].reportIds) ==> id in rest by {
        forall id, k | 1 <= k < |rows| && id in rows[k].reportIds ensures id in rest {
          assert rows[1..][k - 1] == rows[k];
        }
      }
      rows[0].reportIds + rest
  }

  /** The number of ids the weekly selection holds: every row contributes all of its reports. */
  function TotalReports(rows: seq<Report>): nat {
    if rows == [] then 0 else |rows[0].reportIds| + TotalReports(rows[1..])
  }

  lemma {:induction false} AllReportIdsLength(rows: seq<Report>)
    ensures |AllReportIds(rows)| == TotalReports(rows)
  {
    if rows != [] {
      AllReportIdsLength(rows[1..]);
    }
  }

  /** The selection state of the table. */
  class Selection {
    var selected: seq<nat>

    constructor ()
      ensures selected == []
    {
      selected := [];
    }

    /** The row selection's `onChange`: the rows' report ids in the weekly view, else the row keys. */
    method Select(keys: seq<nat>, rows: seq<Report>, weekly: bool)
      modifies this
      ensures selected == if weekly then AllReportIds(rows) else keys
    {
      if weekly {
        selected := AllReportIds(rows);
      } else {
        selected := keys;
      }
    }

    /** Sending a status change: the request is built from the selection, which is then cleared. */
    method UpdateStatus(report: Option<Report>, multipleStatus: Option<string>, multipleIds: Option<seq<nat>>)
      returns (u: StatusUpdate)
      requires (multipleStatus.Some? && multipleStatus.value != "") || report.Some?
      modifies this
      ensures u == StatusRequest(report, multipleStatus, multipleIds, old(selected))
      ensures selected == []
    {
      u := StatusRequest(report, multipleStatus, multipleIds, selected);
      selected := [];
    }
  }

  /** A bulk button sends exactly the selected ids with its tab's status. */
  lemma BulkSendsSelection(view: string, selected: seq<nat>)
    requires BulkStatus(view, selected).Some?
    ensures var u := StatusRequest(None, BulkStatus(view, selected), None, selected);
            u.reportIds == selected && u.status == BulkStatus(view, selected).value && u.reportId.None?
  {
  }

  // ---- Badges and filters ----

  /** `getBadgeStatus`. */
  function Badge(status: string): (b: string)
    ensures b == "default" <==> status !in {"submitted", "incomplete", "empty"}
  {
    if status == "submitted" then "success"
    else if status == "incomplete" then "processing"
    else if status == "empty" then "error"
    else "default"
  }

  /** The three known statuses have three different badges. */
  lemma BadgeInjective(a: string, b: string)
    requires a in {"submitted", "incomplete", "empty"} && b in {"submitted", "incomplete", "empty"} && a != b
    ensures Badge(a) != Badge(b)
  {
  }

  /** The five column filters, in the table's terms. */
  function StatusFilters(data: seq<Report>): seq<FilterOption<string>> {
    Options(data, (r: Report) => r.status, (r: Report) => r.statusText)
  }

  function TutorFilters(data: seq<Report>): seq<FilterOption<string>> {
    Options(data, (r: Report) => r.tutorName, (r: Report) => r.tutorName)
  }

  function StudentFilters(data: seq<Report>): seq<FilterOption<string>> {
    Options(data, (r: Report) => r.studentName, (r: Report) => r.studentName)
  }

  function WeekFilters(data: seq<Report>): seq<FilterOption<CivilTime.Date>> {
    Options(data, (r: Report) => r.week, (r: Report) => r.weekShort)
  }

  function InvoiceFilters(data: seq<Report>): seq<FilterOption<string>> {
    Options(data, (r: Report) => r.invoiceTitle, (r: Report) => r.invoiceTitle)
  }

  // ---- Columns ----

  /** The per-lesson columns, by title ("" for the actions). */
  const LessonColumns: seq<string> := ["Report", "Lesson Date & Time", "Student", "Invoice", "Week", "Status", ""]

  /**
   * `getColumns`: the weekly view moves Week to the front, drops the report and lesson-time
   * columns and puts Reports before the last two; admins get Tutor third.
   */
  method GetColumns(weekly: bool, admin: bool) returns (columns: seq<string>)
    ensures !weekly && !admin ==> columns == LessonColumns
    ensures weekly && !admin ==> columns == ["Week", "Student", "Invoice", "Reports", "Status", ""]
    ensures !weekly && admin ==> columns == ["Report", "Lesson Date & Time", "Tutor", "Student", "Invoice", "Week", "Status", ""]
    ensures weekly && admin ==> columns == ["Week", "Student", "Tutor", "Invoice", "Reports", "Status", ""]
  {
    columns := LessonColumns;
    if weekly {
      columns := [columns[4]] + columns[2..4] + columns[5..];
      columns := Insert(columns, |columns| - 2, "Reports");
    }
    if admin {
      columns := Insert(columns, 2, "Tutor");
    }
  }
}
