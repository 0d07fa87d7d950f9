/**
 * The invoices table (WebApp/src/components/Invoices/InvoicesTable.jsx): the badge of a status,
 * the status links of a row and when they respond, the bulk buttons under a selection, when rows
 * can be selected, the column filters and the columns.
 */
module InvoicesTable {
  import opened Wrappers
  import opened Listing
  import opened InvoicesPage
  import CivilTime

  /** `getBadgeStatus`. */
  function Badge(status: string): (b: string)
    ensures b == "success" <==> status in {"ready", "paid", "submitted"}
    ensures b == "processing" <==> status == "incomplete"
    ensures b == "error" <==> status == "upcoming"
    ensures b == "default" <==> status !in {"ready", "paid", "submitted", "incomplete", "upcoming"}
  {
    if status == "ready" || status == "paid" || status == "submitted" then "success"
    else if status == "incomplete" then "processing"
    else if status == "upcoming" then "error"
    else "default"
  }

  /** A row of the submitted or paid tab always shows a success badge; on the unsubmitted tab only a ready one does. */
  lemma TabBadges(view: string, inv: InvoiceRow, upcomingVisible: bool, now: CivilTime.DateTime)
    requires CivilTime.ValidTime(now) && InTab(view, inv, upcomingVisible, now)
    ensures view != "unsubmitted" ==> Badge(inv.status) == "success"
    ensures view == "unsubmitted" ==> (Badge(inv.status) == "success" <==> inv.status == "ready")
  {
  }

  // ---- A row's status links ----

  /** The status links a row can show: submit, mark as paid, unsubmit and mark as unpaid. */
  datatype RowAction = Submit | MarkPaid | Unsubmit | MarkUnpaid

  /** The links a row shows, in order. */
  function RowActions(status: string, role: string): (r: seq<RowAction>)
    ensures Submit in r <==> status in {"ready", "upcoming", "incomplete"}
    ensures MarkPaid in r <==> role == "admin" && status == "submitted"
    ensures Unsubmit in r <==> status == "submitted"
    ensures MarkUnpaid in r <==> role == "admin" && status == "paid"
  {
    (if status in {"ready", "upcoming", "incomplete"} then [Submit] else [])
    + (if role == "admin" && status == "submitted" then [MarkPaid] else [])
    + (if status == "submitted" then [Unsubmit] else [])
    + (if role == "admin" && status == "paid" then [MarkUnpaid] else [])
  }

  /** The status a link asks for. */
  function Target(a: RowAction): string {
    match a
    case Submit => "submitted"
    case MarkPaid => "paid"
    case Unsubmit => "ready"
    case MarkUnpaid => "submitted"
  }

  /**
   * Whether a link responds to a click: none does while rows are selected, and the submit link
   * is greyed out for an upcoming invoice and for a tutor's incomplete one (an upcoming invoice's
   * link has no click handler at all).
   */
  predicate Responds(a: RowAction, status: string, role: string, selected: seq<nat>) {
    selected == [] && (a == Submit ==> status != "upcoming" && !(status == "incomplete" && role == "tutor"))
  }

  /** The update a click on a row's link sends, if the row shows the link and the link responds. */
  function RowClick(a: RowAction, inv: InvoiceRow, role: string, selected: seq<nat>): (u: Option<InvoiceUpdate>)
    ensures u.Some? <==> a in RowActions(inv.status, role) && Responds(a, inv.status, role, selected)
    ensures u.Some? ==> u.value.invoiceId == Some(inv.id) && u.value.invoiceIds.None? && u.value.status == Some(Target(a))
  {
    if a in RowActions(inv.status, role) && Responds(a, inv.status, role, selected) then
      Some(UpdateRequest(Some(inv), Some(Target(a)), None, None, role))
    else None
  }

  /** The moves a role may make from a row: from status `from` to status `to`. */
  predicate Allowed(role: string, from: string, to: string) {
    || (from == "ready" && to == "submitted")
    || (from == "incomplete" && to == "submitted" && role != "tutor")
    || (from == "submitted" && to == "ready")
    || (from == "submitted" && to == "paid" && role == "admin")
    || (from == "paid" && to == "submitted" && role == "admin")
  }

  /**
   * The rows' links make exactly the allowed moves: submitted to paid and paid back to submitted
   * only for admins, submitted to ready for everyone, and nothing at all from an upcoming invoice.
   */
  lemma RowTransitions(inv: InvoiceRow, role: string, to: string)
    ensures (exists a :: RowClick(a, inv, role, []).Some? && Target(a) == to) <==> Allowed(role, inv.status, to)
  {
    if Allowed(role, inv.status, to) {
      var a := if inv.status == "submitted" && to == "ready" then Unsubmit
               else if inv.status == "submitted" then MarkPaid
               else if inv.status == "paid" then MarkUnpaid
               else Submit;
      assert RowClick(a, inv, role, []).Some? && Target(a) == to;
    }
  }

  /** While rows are selected no row link sends anything. */
  lemma SelectionSilencesRows(a: RowAction, inv: InvoiceRow, role: string, selected: seq<nat>)
    requires selected != []
    ensures RowClick(a, inv, role, selected).None?
  {
  }

  // ---- Selection and bulk buttons ----

  /** Rows can be selected by admins, and by tutors except on the paid tab. */
  predicate SelectionEnabled(role: string, view: string) {
    role == "admin" || (role == "tutor" && view != "paid")
  }

  /**
   * The bulk buttons under a selection, by the status each sends: paid (admins only) and ready on
   * the submitted tab, submitted on the paid and unsubmitted tabs, none without a selection.
   */
  function BulkStatuses(view: string, role: string, selected: seq<nat>): (r: seq<string>)
    ensures selected == [] ==> r == []
    ensures "paid" in r <==> selected != [] && view == "submitted" && role == "admin"
    ensures "ready" in r <==> selected != [] && view == "submitted"
    ensures "submitted" in r <==> selected != [] && (view == "paid" || view == "unsubmitted")
    ensures forall s :: s in r ==> s in {"paid", "ready", "submitted"}
  {
    if selected == [] then []
    else if view == "submitted" then (if role == "admin" then ["paid"] else []) + ["ready"]
    else if view == "paid" || view == "unsubmitted" then ["submitted"]
    else []
  }

  /** A tutor's bulk buttons never mark invoices as paid, and the paid tab offers a tutor none. */
  lemma TutorBulk(view: string, selected: seq<nat>)
    requires SelectionEnabled("tutor", view)
    ensures "paid" !in BulkStatuses(view, "tutor", selected)
    ensures BulkStatuses(view, "tutor", selected) != [] ==> view in {"submitted", "unsubmitted"}
  {
  }

  /** The table's selection, kept per tab (the table is re-created when the tab changes). */
  class Table {
    const view: string
    const role: string
    var selected: seq<nat>

    constructor (view: string, role: string)
      ensures this.view == view && this.role == role && selected == []
    {
      this.view := view;
      this.role := role;
      selected := [];
    }

    /** The row selection's `onChange`, offered only where selection is enabled. */
    method Select(keys: seq<nat>)
      requires SelectionEnabled(role, view)
      modifies this
      ensures selected == keys
    {
      selected := keys;
    }

    /** A bulk button: the update carries the selection and the button's status; the selection is then cleared. */
    method Bulk(status: string) returns (u: InvoiceUpdate)
      requires status in BulkStatuses(view, role, selected)
      modifies this
      ensures u == UpdateRequest(None, None, Some(status), Some(old(selected)), role)
      ensures selected == []
    {
      u := UpdateRequest(None, None, Some(status), Some(selected), role);
      selected := [];
    }
  }

  /** A bulk update names no single invoice, and sends its button's status for exactly the selected invoices. */
  lemma BulkSendsSelection(view: string, role: string, selected: seq<nat>, status: string)
    requires status in BulkStatuses(view, role, selected)
    ensures var u := UpdateRequest(None, None, Some(status), Some(selected), role);
            u.invoiceId.None? && u.status == Some(status) && u.invoiceIds == Some(selected)
  {
  }

  /**
   * The bulk submit button does not repeat the row's gating: on the unsubmitted tab a tutor who
   * selects an upcoming or an incomplete invoice submits it, although its own submit link does
   * not respond.
   */
  lemma BulkSubmitBypassesRowGating(inv: InvoiceRow, status: string)
    requires status in {"upcoming", "incomplete"} && inv.status == status
    ensures RowClick(Submit, inv, "tutor", []).None?
    ensures "submitted" in BulkStatuses("unsubmitted", "tutor", [inv.id])
    ensures SelectionEnabled("tutor", "unsubmitted")
  {
  }

  // ---- Filters and columns ----

  function StatusFilters(data: seq<InvoiceRow>): seq<FilterOption<string>> {
    Options(data, (r: InvoiceRow) => r.status, (r: InvoiceRow) => r.statusText)
  }

  function TutorFilters(data: seq<InvoiceRow>): seq<FilterOption<string>> {
    Options(data, (r: InvoiceRow) => r.tutorName, (r: InvoiceRow) => r.tutorName)
  }

  function WeekFilters(data: seq<InvoiceRow>): seq<FilterOption<CivilTime.Date>> {
    Options(data, (r: InvoiceRow) => r.week, (r: InvoiceRow) => r.weekShort)
  }

  function InvoiceFilters(data: seq<InvoiceRow>): seq<FilterOption<string>> {
    Options(data, (r: InvoiceRow) => r.title, (r: InvoiceRow) => r.title)
  }

  /** The columns, by title ("" for the actions): admins get Tutor third. */
  method GetColumns(admin: bool) returns (columns: seq<string>)
    ensures !admin ==> columns == ["Invoice", "Week", "Status", ""]
    ensures admin ==> columns == ["Invoice", "Week", "Tutor", "Status", ""]
  {
    columns := ["Invoice", "Week", "Status", ""];
    if admin {
      columns := Insert(columns, 2, "Tutor");
    }
  }
}
