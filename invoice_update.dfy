/**
 * The four statements of `update_invoice_status` (Backend/main.py:403-478), each as a function
 * from the tables before to the tables after:
 *   1. exceptions that point at an invoice without lessons lose that invoice;
 *   2. invoices without lessons are deleted, judged on the exceptions after step 1;
 *   3. 'upcoming' becomes 'incomplete' once the week number of today exceeds the invoice's;
 *   4. 'incomplete' becomes 'ready' when no report of the invoice is outstanding, and 'ready'
 *      goes back to 'incomplete' when one is.
 */
module InvoiceUpdate {
  import opened Wrappers
  import opened CivilTime
  import opened Tables

  // ---- Which lessons an invoice holds ----

  /**
   * The occurrence is one of the lessons of the invoice: it joins with its lesson, its effective
   * invoice and effective tutor are the invoice's, and it is not cancelled.
   */
  predicate Counts(lessons: seq<Lesson>, exceptions: seq<LessonException>, lo: LessonOccurrence, inv: Invoice) {
    match LessonOf(lessons, lo.lesson)
    case None => false
    case Some(l) =>
      var le := ExceptionOf(exceptions, lo.id);
      EffectiveInvoice(lo, le) == inv.id && EffectiveTutor(l, le) == inv.tutor && NotCancelled(le)
  }

  /** `NOT EXISTS (SELECT 1 FROM LessonOccurrences ... )`: no occurrence counts towards the invoice. */
  predicate IsEmpty(lessons: seq<Lesson>, occurrences: seq<LessonOccurrence>, exceptions: seq<LessonException>, inv: Invoice) {
    forall lo :: lo in occurrences ==> !Counts(lessons, exceptions, lo, inv)
  }

  /** The ids of the invoices without lessons. */
  function EmptyIds(lessons: seq<Lesson>, occurrences: seq<LessonOccurrence>, exceptions: seq<LessonException>,
                    invoices: seq<Invoice>): (r: set<int>)
    ensures forall id :: id in r <==> exists inv :: inv in invoices && inv.id == id && IsEmpty(lessons, occurrences, exceptions, inv)
  {
    set inv | inv in invoices && IsEmpty(lessons, occurrences, exceptions, inv) :: inv.id
  }

  // ---- Step 1: UPDATE LessonExceptions SET exception_invoice_id = NULL ----

  /** One exception row after step 1: an invoice id in `empty` becomes `NULL`. */
  function Detach(e: LessonException, empty: set<int>): (r: LessonException)
    ensures r.occurrence == e.occurrence && r.kind == e.kind && r.tutor == e.tutor && r.student == e.student
    ensures r.start == e.start && r.end == e.end
    ensures r.invoice == (if e.invoice.Some? && e.invoice.value in empty then None else e.invoice)
  {
    if e.invoice.Some? && e.invoice.value in empty then e.(invoice := None) else e
  }

  /** The exceptions table after step 1, row by row. */
  function DetachAll(exceptions: seq<LessonException>, empty: set<int>): (r: seq<LessonException>)
    ensures |r| == |exceptions| && forall i :: 0 <= i < |exceptions| ==> r[i] == Detach(exceptions[i], empty)
  {
    if |exceptions| == 0 then []
    else [Detach(exceptions[0], empty)] + DetachAll(exceptions[1..], empty)
  }

  /** Clearing keeps each row's occurrence, so the exception of an occurrence is the cleared one. */
  lemma {:induction false} ExceptionOfCleared(exceptions: seq<LessonException>, empty: set<int>, occurrence: int)
    ensures ExceptionOf(DetachAll(exceptions, empty), occurrence)
            == match ExceptionOf(exceptions, occurrence)
               case None => None
               case Some(e) => Some(Detach(e, empty))
  {
    if |exceptions| > 0 {
      var cleared := DetachAll(exceptions, empty);
      assert cleared[1..] == DetachAll(exceptions[1..], empty);
      ExceptionOfCleared(exceptions[1..], empty, occurrence);
    }
  }

  /** After step 1 no exception points at an invoice that had no lessons. */
  lemma ClearedPointAtNonEmpty(lessons: seq<Lesson>, occurrences: seq<LessonOccurrence>,
                               exceptions: seq<LessonException>, invoices: seq<Invoice>, e: LessonException)
    requires e in DetachAll(exceptions, EmptyIds(lessons, occurrences, exceptions, invoices))
    requires e.invoice.Some?
    ensures forall inv :: inv in invoices && inv.id == e.invoice.value ==> !IsEmpty(lessons, occurrences, exceptions, inv)
  {
    var empty := EmptyIds(lessons, occurrences, exceptions, invoices);
    var cleared := DetachAll(exceptions, empty);
    var k :| 0 <= k < |cleared| && cleared[k] == e;
    assert e.invoice.value !in empty;
  }

  /**
   * Step 1 only ever adds lessons to an invoice: an occurrence that counted towards it still
   * does, so step 2 deletes only invoices step 1 found empty.
   */
  lemma ClearKeepsCounts(lessons: seq<Lesson>, occurrences: seq<LessonOccurrence>,
                         exceptions: seq<LessonException>, invoices: seq<Invoice>, lo: LessonOccurrence, inv: Invoice)
    requires UniqueIds(invoices) && inv in invoices && lo in occurrences && Counts(lessons, exceptions, lo, inv)
    ensures Counts(lessons, DetachAll(exceptions, EmptyIds(lessons, occurrences, exceptions, invoices)), lo, inv)
  {
    var empty := EmptyIds(lessons, occurrences, exceptions, invoices);
    ExceptionOfCleared(exceptions, empty, lo.id);
    assert inv.id !in empty by {
      forall x | x in invoices && x.id == inv.id ensures !IsEmpty(lessons, occurrences, exceptions, x) {
        assert x == inv;
      }
    }
  }

  // ---- Step 2: DELETE FROM Invoices WHERE id IN (<ids without lessons>) ----

  /** The rows whose id is not in `gone`, in table order. */
  function DeleteIds(invoices: seq<Invoice>, gone: set<int>): (r: seq<Invoice>)
    ensures forall inv :: inv in r <==> inv in invoices && inv.id !in gone
    ensures |r| <= |invoices|
  {
    if |invoices| == 0 then []
    else (if invoices[0].id in gone then [] else [invoices[0]]) + DeleteIds(invoices[1..], gone)
  }

  /** With unique ids, step 2 keeps exactly the invoices that hold a lesson. */
  lemma DeleteEmptyKeepsNonEmpty(lessons: seq<Lesson>, occurrences: seq<LessonOccurrence>,
                                 exceptions: seq<LessonException>, invoices: seq<Invoice>, inv: Invoice)
    requires UniqueIds(invoices)
    ensures inv in DeleteIds(invoices, EmptyIds(lessons, occurrences, exceptions, invoices))
            <==> inv in invoices && !IsEmpty(lessons, occurrences, exceptions, inv)
  {
    if inv in invoices && !IsEmpty(lessons, occurrences, exceptions, inv) {
      forall x | x in invoices && x.id == inv.id ensures !IsEmpty(lessons, occurrences, exceptions, x) {
        assert x == inv;
      }
    }
  }

  // ---- Step 3: 'upcoming' -> 'incomplete' ----

  /** The day of the year, January 1st being day 0. */
  function YearDay(d: Date): (r: int)
    requires ValidDate(d)
    ensures 0 <= r < DaysInYear(d.year) && DayNumber(d) == DaysBeforeYear(d.year) + r
  {
    DayNumberWithinYear(d);
    YearStep(d.year);
    DaysBeforeMonth(d.year, d.month) + d.day - 1
  }

  /**
   * MySQL's `WEEK(d)` (default mode 0: weeks start on Sunday) or, when `mondayFirst`, SQLite's
   * `strftime('%W', d)` (weeks start on Monday). The days before the first start day of the year
   * are week 0. `%W` yields two-digit text, which compares as the number does.
   */
  function WeekNumber(d: Date, mondayFirst: bool): (r: int)
    requires ValidDate(d)
    ensures 0 <= r <= 53
  {
    var offset := if mondayFirst then Weekday(d) else JsDay(d);
    (YearDay(d) + 7 - offset) / 7
  }

  /** Week 0 holds exactly the days before the year's first start day. */
  lemma WeekNumberZero(d: Date, mondayFirst: bool)
    requires ValidDate(d)
    ensures WeekNumber(d, mondayFirst) == 0 <==> YearDay(d) < (if mondayFirst then Weekday(d) else JsDay(d))
  {
  }

  /** Seven days later in the same year is the next week number. */
  lemma WeekNumberStep(d: Date, e: Date, mondayFirst: bool)
    requires ValidDate(d) && ValidDate(e) && e.year == d.year && DayNumber(e) == DayNumber(d) + 7
    ensures WeekNumber(e, mondayFirst) == WeekNumber(d, mondayFirst) + 1
  {
    WeekdayPeriodic(d, e);
    var yd, ye := YearDay(d), YearDay(e);
    assert ye == yd + 7;
  }

  /** Step 3 for one row: compares week numbers only, the year is not looked at. */
  function CloseWeek(inv: Invoice, today: Date, mondayFirst: bool): (r: Invoice)
    requires ValidDate(today) && ValidDate(inv.week)
    ensures r.id == inv.id && r.week == inv.week && r.tutor == inv.tutor
    ensures r.status == Incomplete <==>
              inv.status == Incomplete || (inv.status == Upcoming && WeekNumber(today, mondayFirst) > WeekNumber(inv.week, mondayFirst))
    ensures r.status != Incomplete ==> r.status == inv.status
  {
    if inv.status == Upcoming && WeekNumber(today, mondayFirst) > WeekNumber(inv.week, mondayFirst) then inv.(status := Incomplete)
    else inv
  }

  /** An invoice for the last week of 2024 stays 'upcoming' in January 2025: its week number (53 or 52) is not below January's. */
  lemma YearlessWeekStaysUpcoming(mondayFirst: bool)
    ensures var inv := Invoice(1, Date(2024, 12, 30), Upcoming, 1);
            var today := Date(2025, 1, 7);
            DayNumber(today) > DayNumber(inv.week) + 6 && CloseWeek(inv, today, mondayFirst).status == Upcoming
  {
    assert Weekday(Date(2024, 12, 30)) == 0 && Weekday(Date(2025, 1, 7)) == 1;
  }

  /** An invoice for January 2025 becomes 'incomplete' in December 2024, before its week has begun. */
  lemma YearlessWeekClosesEarly(mondayFirst: bool)
    ensures var inv := Invoice(1, Date(2025, 1, 6), Upcoming, 1);
            var today := Date(2024, 12, 9);
            DayNumber(today) < DayNumber(inv.week) && CloseWeek(inv, today, mondayFirst).status == Incomplete
  {
    assert Weekday(Date(2025, 1, 6)) == 0 && Weekday(Date(2024, 12, 9)) == 0;
  }

  // ---- Step 4: 'incomplete' <-> 'ready' ----

  /**
   * The report is outstanding for its occurrence: not 'submitted', the occurrence joins with its
   * lesson, is not cancelled, and is not handed to another tutor.
   */
  predicate Outstanding(lessons: seq<Lesson>, exceptions: seq<LessonException>, r: Report, lo: LessonOccurrence) {
    r.occurrence == lo.id && r.status != "submitted"
    && match LessonOf(lessons, lo.lesson)
       case None => false
       case Some(l) =>
         var le := ExceptionOf(exceptions, lo.id);
         NotCancelled(le) && (le.None? || le.value.tutor.None? || le.value.tutor.value == l.tutor)
  }

  /** The subquery `SELECT lo.invoice_id ...`: the base invoices of the occurrences with an outstanding report. */
  function PendingInvoices(lessons: seq<Lesson>, occurrences: seq<LessonOccurrence>, exceptions: seq<LessonException>,
                           reports: seq<Report>): (r: set<int>)
    ensures forall id :: id in r <==>
              exists rep, lo :: rep in reports && lo in occurrences && Outstanding(lessons, exceptions, rep, lo) && lo.invoice == id
  {
    set rep, lo | rep in reports && lo in occurrences && Outstanding(lessons, exceptions, rep, lo) :: lo.invoice
  }

  /** The `CASE` of step 4 for an invoice whose id is (or is not) pending. */
  function NextStatus(status: InvoiceStatus, pending: bool): (r: InvoiceStatus)
    ensures status != Incomplete && status != Ready ==> r == status
  {
    if status == Incomplete && !pending then Ready
    else if status == Ready && pending then Incomplete
    else status
  }

  /** Between them, 'incomplete' and 'ready' say whether a report is outstanding, whichever of the two the invoice had. */
  lemma NextStatusRules(status: InvoiceStatus, pending: bool)
    requires status == Incomplete || status == Ready
    ensures NextStatus(status, pending) == Ready <==> !pending
    ensures NextStatus(status, pending) == Incomplete <==> pending
  {
  }

  /** Steps 3 and 4 for one invoice row. */
  function Advance(inv: Invoice, today: Date, mondayFirst: bool, pending: set<int>): (r: Invoice)
    requires ValidDate(today) && ValidDate(inv.week)
    ensures r.id == inv.id && r.week == inv.week && r.tutor == inv.tutor
  {
    var closed := CloseWeek(inv, today, mondayFirst);
    closed.(status := NextStatus(closed.status, closed.id in pending))
  }

  /** Steps 3 and 4 over the table, row by row. */
  function AdvanceAll(invoices: seq<Invoice>, today: Date, mondayFirst: bool, pending: set<int>): (r: seq<Invoice>)
    requires ValidDate(today) && forall inv :: inv in invoices ==> ValidDate(inv.week)
    ensures |r| == |invoices| && forall i :: 0 <= i < |invoices| ==> r[i] == Advance(invoices[i], today, mondayFirst, pending)
  {
    if |invoices| == 0 then []
    else [Advance(invoices[0], today, mondayFirst, pending)] + AdvanceAll(invoices[1..], today, mondayFirst, pending)
  }

  /**
   * After steps 3 and 4 an invoice is 'ready' exactly when it was 'incomplete' or 'ready' (or an
   * 'upcoming' one whose week number has passed) and nothing is pending; 'upcoming' is left only
   * while today's week number has not passed the invoice's.
   */
  lemma AdvanceOutcome(inv: Invoice, today: Date, mondayFirst: bool, pending: set<int>)
    requires ValidDate(today) && ValidDate(inv.week)
    ensures var r := Advance(inv, today, mondayFirst, pending);
            var open := inv.status == Incomplete || inv.status == Ready
                        || (inv.status == Upcoming && WeekNumber(today, mondayFirst) > WeekNumber(inv.week, mondayFirst));
            && (r.status == Ready <==> open && inv.id !in pending)
            && (r.status == Incomplete <==> open && inv.id in pending)
            && (!open ==> r.status == inv.status)
  {
    var closed := CloseWeek(inv, today, mondayFirst);
    if closed.status == Incomplete || closed.status == Ready {
      NextStatusRules(closed.status, closed.id in pending);
    }
  }

  /**
   * A report left outstanding on an occurrence moved to another invoice by an exception blocks
   * the occurrence's base invoice, not the one it now belongs to: here invoice 200 holds the only
   * lesson, whose report is not submitted, and still becomes 'ready'.
   */
  lemma PendingUsesBaseInvoice()
    ensures var lessons := [Lesson(1, 7, 3, 4, 5, "")];
            var occurrences := [LessonOccurrence(10, 1, DateTime(Date(2025, 1, 6), 9, 0, 0, 0), DateTime(Date(2025, 1, 6), 10, 0, 0, 0), 100)];
            var exceptions := [LessonException(10, None, Some(200), None, None, None, None)];
            var reports := [Report(1, 10, "empty")];
            var inv := Invoice(200, Date(2025, 1, 6), Incomplete, 7);
            && Counts(lessons, exceptions, occurrences[0], inv)
            && Outstanding(lessons, exceptions, reports[0], occurrences[0])
            && NextStatus(inv.status, inv.id in PendingInvoices(lessons, occurrences, exceptions, reports)) == Ready
  {
    var lessons := [Lesson(1, 7, 3, 4, 5, "")];
    var occurrences := [LessonOccurrence(10, 1, DateTime(Date(2025, 1, 6), 9, 0, 0, 0), DateTime(Date(2025, 1, 6), 10, 0, 0, 0), 100)];
    var exceptions := [LessonException(10, None, Some(200), None, None, None, None)];
    var reports := [Report(1, 10, "empty")];
    assert "empty" != "submitted" by { assert "empty"[0] != "submitted"[0]; }
    var pending := PendingInvoices(lessons, occurrences, exceptions, reports);
    assert 200 !in pending;
  }

  /** Every row after steps 3 and 4 is the advanced form of a row before them. */
  lemma AdvanceAllSource(invoices: seq<Invoice>, today: Date, mondayFirst: bool, pending: set<int>, a: Invoice)
    requires ValidDate(today) && forall inv :: inv in invoices ==> ValidDate(inv.week)
    requires a in AdvanceAll(invoices, today, mondayFirst, pending)
    ensures exists x :: x in invoices && a == Advance(x, today, mondayFirst, pending)
  {
    var r := AdvanceAll(invoices, today, mondayFirst, pending);
    var i :| 0 <= i < |r| && r[i] == a;
    assert invoices[i] in invoices;
  }

  /** Whether an invoice is empty depends on its id and tutor only, which steps 3 and 4 keep. */
  lemma AdvanceKeepsEmptiness(lessons: seq<Lesson>, occurrences: seq<LessonOccurrence>, exceptions: seq<LessonException>,
                              x: Invoice, today: Date, mondayFirst: bool, pending: set<int>)
    requires ValidDate(today) && ValidDate(x.week)
    ensures IsEmpty(lessons, occurrences, exceptions, Advance(x, today, mondayFirst, pending))
        <==> IsEmpty(lessons, occurrences, exceptions, x)
  {
    var a := Advance(x, today, mondayFirst, pending);
    assert forall lo :: Counts(lessons, exceptions, lo, a) == Counts(lessons, exceptions, lo, x);
  }

  /** Steps 3 and 4 keep ids, weeks and tutors, so the table invariants survive them. */
  lemma AdvanceKeepsInvariants(invoices: seq<Invoice>, today: Date, mondayFirst: bool, pending: set<int>, bound: int)
    requires ValidDate(today) && WeeksValid(invoices) && UniqueWeeks(invoices) && UniqueIds(invoices)
    requires forall inv :: inv in invoices ==> inv.id < bound
    ensures var r := AdvanceAll(invoices, today, mondayFirst, pending);
            WeeksValid(r) && UniqueWeeks(r) && UniqueIds(r) && forall inv :: inv in r ==> inv.id < bound
  {
    var r := AdvanceAll(invoices, today, mondayFirst, pending);
    forall a | a in r
      ensures ValidDate(a.week) && a.id < bound
    {
      AdvanceAllSource(invoices, today, mondayFirst, pending, a);
    }
    forall a, b | a in r && b in r && (a.id == b.id || (a.tutor == b.tutor && a.week == b.week))
      ensures a == b
    {
      AdvanceAllSource(invoices, today, mondayFirst, pending, a);
      AdvanceAllSource(invoices, today, mondayFirst, pending, b);
      var xa :| xa in invoices && a == Advance(xa, today, mondayFirst, pending);
      var xb :| xb in invoices && b == Advance(xb, today, mondayFirst, pending);
      assert xa == xb;
    }
  }

  /**
   * After all four steps: an invoice is kept exactly when it holds a lesson, and among the kept
   * ones 'ready' means no report is outstanding and 'incomplete' means one is.
   */
  lemma UpdateOutcome(lessons: seq<Lesson>, occurrences: seq<LessonOccurrence>, exceptions: seq<LessonException>,
                      reports: seq<Report>, invoices: seq<Invoice>, today: Date, mondayFirst: bool)
    requires UniqueIds(invoices) && WeeksValid(invoices) && ValidDate(today)
    ensures var cleared := DetachAll(exceptions, EmptyIds(lessons, occurrences, exceptions, invoices));
            var kept := DeleteIds(invoices, EmptyIds(lessons, occurrences, cleared, invoices));
            var pending := PendingInvoices(lessons, occurrences, cleared, reports);
            var r := AdvanceAll(kept, today, mondayFirst, pending);
            && (forall x :: x in invoices && !IsEmpty(lessons, occurrences, cleared, x) ==> Advance(x, today, mondayFirst, pending) in r)
            && (forall inv :: inv in r ==>
                  && !IsEmpty(lessons, occurrences, cleared, inv)
                  && (inv.status == Ready ==> inv.id !in pending)
                  && (inv.status == Incomplete ==> inv.id in pending))
  {
    var cleared := DetachAll(exceptions, EmptyIds(lessons, occurrences, exceptions, invoices));
    var kept := DeleteIds(invoices, EmptyIds(lessons, occurrences, cleared, invoices));
    var pending := PendingInvoices(lessons, occurrences, cleared, reports);
    var r := AdvanceAll(kept, today, mondayFirst, pending);
    forall x | x in invoices && !IsEmpty(lessons, occurrences, cleared, x)
      ensures Advance(x, today, mondayFirst, pending) in r
    {
      DeleteEmptyKeepsNonEmpty(lessons, occurrences, cleared, invoices, x);
      var k :| 0 <= k < |kept| && kept[k] == x;
      assert r[k] == Advance(x, today, mondayFirst, pending);
    }
    forall inv | inv in r
      ensures !IsEmpty(lessons, occurrences, cleared, inv)
      ensures inv.status == Ready ==> inv.id !in pending
      ensures inv.status == Incomplete ==> inv.id in pending
    {
      AdvanceAllSource(kept, today, mondayFirst, pending, inv);
      var x :| x in kept && inv == Advance(x, today, mondayFirst, pending);
      DeleteEmptyKeepsNonEmpty(lessons, occurrences, cleared, invoices, x);
      AdvanceKeepsEmptiness(lessons, occurrences, cleared, x, today, mondayFirst, pending);
      AdvanceOutcome(x, today, mondayFirst, pending);
    }
  }
}
