/**
 * The invoices page (WebApp/src/components/Invoices/index.jsx): which invoices each tab lists,
 * the tab a user starts on, the `disable_unsubmit` flag passed to a student's report, the status
 * update it sends, the remembered "Show upcoming" switch and the invoice the drawer shows. The
 * clock is a parameter (`now`).
 */
module InvoicesPage {
  import opened Wrappers
  import opened CivilTime
  import DateText
  import LessonEditor
  import ReportsPage
  import opened Listing

  /** An invoice as the page receives it from `get_invoices`. */
  datatype InvoiceRow = InvoiceRow(
    id: nat, title: string, week: Date, weekShort: string, status: string, statusText: string, tutorName: string)

  // ---- The tabs ----

  /** `new Date(invoice.week) > new Date()`: the week starts after now; an unreadable week never does. */
  predicate UpcomingWeek(inv: InvoiceRow, now: DateTime)
    requires ValidTime(now)
  {
    ValidDate(inv.week) && Instant(DateTime(inv.week, 0, 0, 0, 0)) > Instant(now)
  }

  /** Whether the tab `view` lists an invoice. */
  predicate InTab(view: string, inv: InvoiceRow, upcomingVisible: bool, now: DateTime)
    requires ValidTime(now)
  {
    var shown := upcomingVisible || !UpcomingWeek(inv, now);
    if view == "unsubmitted" then inv.status in {"upcoming", "incomplete", "ready"} && shown
    else if view == "submitted" then inv.status == "submitted" && shown
    else if view == "paid" then inv.status == "paid" && shown
    else false
  }

  /** The filter of the effect: the invoices of the tab, in the order received. */
  function TabInvoices(data: seq<InvoiceRow>, view: string, upcomingVisible: bool, now: DateTime): (r: seq<InvoiceRow>)
    requires ValidTime(now)
    ensures forall x :: x in r <==> x in data && InTab(view, x, upcomingVisible, now)
  {
    Filter(data, (x: InvoiceRow) => InTab(view, x, upcomingVisible, now))
  }

  /**
   * Every invoice with one of the five statuses and a week that is shown is listed by exactly
   * one tab; an invoice of the current or a past week is shown whatever the switch says.
   */
  lemma TabsPartition(inv: InvoiceRow, upcomingVisible: bool, now: DateTime)
    requires ValidTime(now)
    requires inv.status in {"upcoming", "incomplete", "ready", "submitted", "paid"}
    requires upcomingVisible || !UpcomingWeek(inv, now)
    ensures InTab("unsubmitted", inv, upcomingVisible, now) <==> inv.status in {"upcoming", "incomplete", "ready"}
    ensures InTab("submitted", inv, upcomingVisible, now) <==> inv.status == "submitted"
    ensures InTab("paid", inv, upcomingVisible, now) <==> inv.status == "paid"
    ensures !(InTab("unsubmitted", inv, upcomingVisible, now) && InTab("submitted", inv, upcomingVisible, now))
    ensures !(InTab("unsubmitted", inv, upcomingVisible, now) && InTab("paid", inv, upcomingVisible, now))
    ensures !(InTab("submitted", inv, upcomingVisible, now) && InTab("paid", inv, upcomingVisible, now))
  {
  }

  /**
   * Turning "Show upcoming" on only adds invoices to a tab, and what it adds are exactly the
   * invoices of weeks that start after now; a tab the page does not know lists nothing.
   */
  lemma SwitchOnlyAdds(data: seq<InvoiceRow>, view: string, now: DateTime, x: InvoiceRow)
    requires ValidTime(now)
    ensures multiset(TabInvoices(data, view, false, now)) <= multiset(TabInvoices(data, view, true, now))
    ensures x in TabInvoices(data, view, true, now) && x !in TabInvoices(data, view, false, now) ==> UpcomingWeek(x, now)
    ensures view !in {"unsubmitted", "submitted", "paid"} ==> TabInvoices(data, view, true, now) == []
  {
    FilterMonotone(data, (y: InvoiceRow) => InTab(view, y, false, now), (y: InvoiceRow) => InTab(view, y, true, now));
  }

  /** The tabs offered, by key: admins start with the submitted invoices, tutors with their unsubmitted ones. */
  function TabKeys(role: string): (r: seq<string>)
    ensures multiset(r) == multiset{"unsubmitted", "submitted", "paid"}
    ensures r[0] == (if role == "admin" then "submitted" else "unsubmitted")
  {
    if role == "admin" then ["submitted", "paid", "unsubmitted"] else ["unsubmitted", "submitted", "paid"]
  }

  /** The initial tab: "unsubmitted" for tutors, "submitted" for everyone else. */
  function DefaultView(role: string): (r: string)
    ensures r in TabKeys(role)
    ensures r == "unsubmitted" <==> role == "tutor"
  {
    if role == "tutor" then "unsubmitted" else "submitted"
  }

  // ---- The "Show upcoming" switch ----

  /** The text `localStorage.setItem` stores for a boolean. */
  function StoredText(b: bool): (s: string)
    ensures s == "true" <==> b
  {
    if b then "true" else "false"
  }

  /** The switch's initial state: `getItem(...) === "true"`; a missing entry reads as off. */
  predicate ReadStored(stored: Option<string>) {
    stored == Some("true")
  }

  /** The switch's `onClick`: the state flips and the new state is stored. */
  function ToggleUpcoming(visible: bool): (r: (bool, string))
    ensures r.0 == !visible && ReadStored(Some(r.1)) == r.0
  {
    (!visible, StoredText(!visible))
  }

  // ---- Reports and updates ----

  /**
   * The `disable_unsubmit` query parameter of a student's report: "false" on the unsubmitted tab
   * and for admins, "true" otherwise.
   */
  function DisableUnsubmit(view: string, role: string): (r: string)
    ensures r in {"true", "false"}
    ensures r == "false" <==> view == "unsubmitted" || role == "admin"
  {
    if view == "unsubmitted" || role == "admin" then "false" else "true"
  }

  /** The mutation `handleUpdateInvoiceStatus` sends: invoice id, role and the `data` body. */
  datatype InvoiceUpdate = InvoiceUpdate(invoiceId: Option<nat>, role: string, status: Option<string>, invoiceIds: Option<seq<nat>>)

  /** JavaScript truthiness of an optional string. */
  predicate Truthy(s: Option<string>) {
    s.Some? && s.value != ""
  }

  /**
   * `handleUpdateInvoiceStatus`: the bulk status when it is truthy, else the single status; the
   * selected ids are passed along as they are (null for a single update).
   */
  function UpdateRequest(invoice: Option<InvoiceRow>, status: Option<string>, multipleStatus: Option<string>,
                         selected: Option<seq<nat>>, role: string): (u: InvoiceUpdate)
    ensures Truthy(multipleStatus) ==> u.status == multipleStatus
    ensures !Truthy(multipleStatus) ==> u.status == status
    ensures u.invoiceIds == selected && u.role == role
    ensures u.invoiceId.Some? <==> invoice.Some?
    ensures invoice.Some? ==> u.invoiceId == Some(invoice.value.id)
  {
    InvoiceUpdate(if invoice.Some? then Some(invoice.value.id) else None, role,
                  if Truthy(multipleStatus) then multipleStatus else status, selected)
  }

  // ---- The drawer's invoice ----

  /**
   * The invoice handed to the drawer: none without an `invoiceId` in the address, the invoice
   * with that id when the list has it, and `Missing` (reset to null, back to `/invoices`, error
   * message) when it does not.
   */
  datatype DrawerInvoice = NoInvoice | Showing(invoice: InvoiceRow) | Missing

  /** `invoice.id === parseInt(invoiceId)`. */
  predicate HasId(param: string, inv: InvoiceRow) {
    ReportsPage.ParamIs(param, inv.id)
  }

  /** The selection part of the effect, once the invoices are loaded. */
  function SelectInvoice(data: seq<InvoiceRow>, invoiceId: Option<string>): (s: DrawerInvoice)
    ensures s.Showing? ==> invoiceId.Some? && s.invoice in data && HasId(invoiceId.value, s.invoice)
    ensures s == NoInvoice <==> !ReportsPage.Given(invoiceId)
    ensures s == Missing <==> ReportsPage.Given(invoiceId) && forall x :: x in data ==> !HasId(invoiceId.value, x)
  {
    if ReportsPage.Given(invoiceId) then
      var id := invoiceId.value;
      match Find(data, (x: InvoiceRow) => HasId(id, x))
      case Some(inv) => Showing(inv)
      case None => Missing
    else NoInvoice
  }

  /** `handleOpenInvoice`: the address segment of an invoice, read back as the `invoiceId` parameter. */
  function OpenInvoice(id: nat): (param: string)
    ensures param != ""
  {
    DateText.NatText(id)
  }

  /** Opening an invoice of the list shows that invoice in the drawer, when invoice ids are distinct. */
  lemma OpenThenSelect(data: seq<InvoiceRow>, inv: InvoiceRow)
    requires inv in data
    requires forall x :: x in data && x.id == inv.id ==> x == inv
    ensures SelectInvoice(data, Some(OpenInvoice(inv.id))) == Showing(inv)
  {
    var param := OpenInvoice(inv.id);
    LessonEditor.ParseIntNatText(inv.id);
    forall x | x in data && HasId(param, x) ensures x == inv {
      assert LessonEditor.ParseInt(Some(param)) == LessonEditor.Number(x.id);
    }
    FindUnique(data, (x: InvoiceRow) => HasId(param, x), inv);
  }
}
