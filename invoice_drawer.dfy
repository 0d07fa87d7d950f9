/**
 * The invoice drawer (WebApp/src/components/Invoices/InvoiceDrawer.jsx): the amount of each
 * student's row and the invoice total, and the rules of its download, "Mark as paid" and
 * submit buttons. Lesson time is counted in whole minutes, so an amount is a whole number of
 * sixtieths of a pound.
 */
module InvoiceDrawer {
  import opened Wrappers
  import opened InvoicesPage
  import InvoicesTable

  /** A student's row of `get_invoice_lessons`: the student's lessons in the invoice and their total length. */
  datatype StudentLessons = StudentLessons(student: nat, studentName: string, lessonCount: nat, minutes: nat)

  /** The Total column: rate times the student's lesson time, in sixtieths of a pound. */
  function RowTotal(rate: nat, row: StudentLessons): nat {
    rate * row.minutes
  }

  /** The sum of the Total column. */
  function SumOfRows(rate: nat, rows: seq<StudentLessons>): nat {
    if rows == [] then 0 else RowTotal(rate, rows[0]) + SumOfRows(rate, rows[1..])
  }

  /** The students' lesson time together. */
  function TotalMinutes(rows: seq<StudentLessons>): nat {
    if rows == [] then 0 else rows[0].minutes + TotalMinutes(rows[1..])
  }

  /** The `reduce` under the table: hours times rate added to the running total, from 0. */
  function Reduce(total: nat, rate: nat, rows: seq<StudentLessons>): nat
    decreases |rows|
  {
    if rows == [] then total else Reduce(total + rows[0].minutes * rate, rate, rows[1..])
  }

  /** The invoice total. */
  function GrandTotal(rate: nat, rows: seq<StudentLessons>): nat {
    Reduce(0, rate, rows)
  }

  lemma {:induction false} ReduceAdds(total: nat, rate: nat, rows: seq<StudentLessons>)
    ensures Reduce(total, rate, rows) == total + SumOfRows(rate, rows)
    decreases |rows|
  {
    if rows != [] {
      ReduceAdds(total + rows[0].minutes * rate, rate, rows[1..]);
    }
  }

  lemma {:induction false} SumIsRateTimesTime(rate: nat, rows: seq<StudentLessons>)
    ensures SumOfRows(rate, rows) == rate * TotalMinutes(rows)
  {
    if rows != [] {
      SumIsRateTimesTime(rate, rows[1..]);
    }
  }

  lemma {:induction false} RowWithinSum(rate: nat, rows: seq<StudentLessons>, k: nat)
    requires k < |rows|
    ensures RowTotal(rate, rows[k]) <= SumOfRows(rate, rows)
  {
    if k > 0 {
      RowWithinSum(rate, rows[1..], k - 1);
    }
  }

  /**
   * The invoice total is the sum of the Total column, equals the rate times all the lesson
   * time, and is at least every row's amount.
   */
  lemma GrandTotalIsSum(rate: nat, rows: seq<StudentLessons>)
    ensures GrandTotal(rate, rows) == SumOfRows(rate, rows) == rate * TotalMinutes(rows)
    ensures forall k :: 0 <= k < |rows| ==> RowTotal(rate, rows[k]) <= GrandTotal(rate, rows)
  {
    ReduceAdds(0, rate, rows);
    SumIsRateTimesTime(rate, rows);
    forall k | 0 <= k < |rows| ensures RowTotal(rate, rows[k]) <= GrandTotal(rate, rows) {
      RowWithinSum(rate, rows, k);
    }
  }

  // ---- Buttons ----

  /** "Download invoice" is disabled for an upcoming invoice. */
  predicate DownloadDisabled(status: string) {
    status == "upcoming"
  }

  /** "Mark as paid" is shown to admins on a submitted invoice. */
  predicate MarkPaidShown(status: string, role: string) {
    status == "submitted" && role == "admin"
  }

  /** The submit button is hidden from everyone but admins on a paid invoice. */
  predicate SubmitShown(status: string, role: string) {
    status != "paid" || role == "admin"
  }

  /** The submit button is disabled for an upcoming invoice, and for a tutor's incomplete one. */
  predicate SubmitDisabled(status: string, role: string) {
    status == "upcoming" || (role == "tutor" && status == "incomplete")
  }

  /** The status the submit button sends: a submitted invoice goes back to ready, any other is submitted. */
  function NextStatus(status: string): (r: string)
    ensures r == "ready" <==> status == "submitted"
    ensures r == "submitted" <==> status != "submitted"
  {
    if status == "submitted" then "ready" else "submitted"
  }

  /** The submit button's label. */
  function SubmitLabel(status: string, role: string): (r: string)
    ensures r in {"Mark as unsubmitted", "Mark as unpaid (submitted)", "Mark as submitted", "Unsubmit", "Submit"}
    ensures role != "admin" ==> (r == "Unsubmit" <==> status == "submitted")
    ensures role == "admin" ==> (r == "Mark as unsubmitted" <==> status == "submitted")
    ensures r == "Mark as unpaid (submitted)" <==> role == "admin" && status == "paid"
  {
    if role == "admin" then
      if status == "submitted" then "Mark as unsubmitted"
      else if status == "paid" then "Mark as unpaid (submitted)" else "Mark as submitted"
    else if status == "submitted" then "Unsubmit" else "Submit"
  }

  /** The submit button's tooltip: why it is disabled, or nothing. */
  function SubmitTooltip(status: string, role: string): (r: string)
    ensures r == "" <==> !SubmitDisabled(status, role)
  {
    if status == "upcoming" then "Invoice cannot be submitted as it contains upcoming lessons"
    else if role == "tutor" && status == "incomplete" then "Invoice cannot be submitted yet as it is missing lesson report(s)"
    else ""
  }

  /** The update a click on "Mark as paid" or on the submit button sends, if the button is there and enabled. */
  function DrawerClick(markPaid: bool, inv: InvoiceRow, role: string): (u: Option<InvoiceUpdate>)
    ensures u.Some? <==> if markPaid then MarkPaidShown(inv.status, role)
                         else SubmitShown(inv.status, role) && !SubmitDisabled(inv.status, role)
    ensures u.Some? ==> u.value.invoiceId == Some(inv.id) && u.value.invoiceIds.None?
  {
    if markPaid && MarkPaidShown(inv.status, role) then
      Some(UpdateRequest(Some(inv), Some("paid"), None, None, role))
    else if !markPaid && SubmitShown(inv.status, role) && !SubmitDisabled(inv.status, role) then
      Some(UpdateRequest(Some(inv), Some(NextStatus(inv.status)), None, None, role))
    else None
  }

  /**
   * For an invoice with one of the five statuses and a user who is an admin or a tutor, the
   * drawer's buttons make exactly the moves the table's row links make.
   */
  lemma DrawerAgreesWithTable(inv: InvoiceRow, role: string, to: string)
    requires inv.status in {"upcoming", "incomplete", "ready", "submitted", "paid"}
    requires role in {"admin", "tutor"}
    ensures (exists markPaid :: DrawerClick(markPaid, inv, role).Some? && DrawerClick(markPaid, inv, role).value.status == Some(to))
            <==> InvoicesTable.Allowed(role, inv.status, to)
  {
    InvoicesTable.RowTransitions(inv, role, to);
    if InvoicesTable.Allowed(role, inv.status, to) {
      var markPaid := inv.status == "submitted" && to == "paid";
      assert DrawerClick(markPaid, inv, role).Some? && DrawerClick(markPaid, inv, role).value.status == Some(to);
    }
  }
}
