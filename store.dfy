/**
 * The backend's database connection as one object whose tables the request handlers rewrite
 * (Backend/main.py). Each table is a sequence of rows; `nextInvoiceId` is the `AUTO_INCREMENT`
 * counter of `Invoices`. `Valid` gathers the invariants the schema and the handlers keep.
 */
module Store {
  import opened Wrappers
  import opened CivilTime
  import opened Tables
  import opened Invoices
  import opened InvoiceUpdate
  import opened LessonEdits

  /**
   * The tutor and start that pick the invoice of a moved occurrence (Backend/main.py:844-856):
   * the body's tutor when it is given and not 0, else `COALESCE(le.exception_tutor_id,
   * l.tutor_id)`; the body's start when given, else `COALESCE(le.exception_start_time,
   * lo.start_time)`. `None` when a lookup it needs finds no row, where `fetchone()` fails.
   */
  function ReassignTarget(lessons: seq<Lesson>, occurrences: seq<LessonOccurrence>, exceptions: seq<LessonException>,
                          occurrence: int, patch: ExceptionPatch): (r: Option<(int, DateTime)>)
    ensures r.Some? <==> ((patch.tutor.Set? && patch.tutor.value.Some? && patch.tutor.value.value != 0)
                          || (OccurrenceOf(occurrences, occurrence).Some?
                              && LessonOf(lessons, OccurrenceOf(occurrences, occurrence).value.lesson).Some?))
                         && ((patch.start.Set? && patch.start.value.Some?) || OccurrenceOf(occurrences, occurrence).Some?)
    ensures r.Some? && (forall lo :: lo in occurrences ==> ValidTime(lo.start))
            && (forall e :: e in exceptions ==> e.start.Some? ==> ValidTime(e.start.value))
            && (patch.start.Set? && patch.start.value.Some? ==> ValidTime(patch.start.value.value))
            ==> ValidTime(r.value.1)
  {
    var lo := OccurrenceOf(occurrences, occurrence);
    var le := ExceptionOf(exceptions, occurrence);
    var tutor :=
      if patch.tutor.Set? && patch.tutor.value.Some? && patch.tutor.value.value != 0 then Some(patch.tutor.value.value)
      else if lo.Some? && LessonOf(lessons, lo.value.lesson).Some? then Some(EffectiveTutor(LessonOf(lessons, lo.value.lesson).value, le))
      else None;
    var start :=
      if patch.start.Set? && patch.start.value.Some? then Some(patch.start.value.value)
      else if lo.Some? then Some(EffectiveStart(lo.value, le))
      else None;
    if tutor.Some? && start.Some? then Some((tutor.value, start.value)) else None
  }

  /**
   * The invoice table and counter after an occurrence moves to the invoice `id` of `tutor` for
   * the week of `start` (Backend/main.py:859-862): the tutor's missing week is created from the
   * counter, the invoice is reopened, and it is that tutor's invoice for that week.
   */
  ghost predicate MovedTo(before: seq<Invoice>, next: int, after: seq<Invoice>, afterNext: int,
                          tutor: int, start: DateTime, today: Date, id: int)
    requires WeeksValid(before) && ValidDate(start.date) && ValidDate(today)
  {
    after == Reopened(WithCreated(before, tutor, start.date, start.date, today, next), id)
    && afterNext == next + |CreatedWeeks(before, tutor, start.date, start.date)|
    && (exists x :: x in after && x.id == id && x.tutor == tutor && x.week == MondayOf(start.date))
    && forall x :: x in after && x.id == id ==> x.status != Submitted
  }

  class Database {
    var lessons: seq<Lesson>
    var occurrences: seq<LessonOccurrence>
    var exceptions: seq<LessonException>
    var reports: seq<Report>
    var invoices: seq<Invoice>
    var nextInvoiceId: int

    /** Invoice weeks are real dates, one invoice per tutor and week, ids unique and below the counter. */
    ghost predicate Valid()
      reads this
    {
      WeeksValid(invoices) && UniqueWeeks(invoices) && UniqueIds(invoices)
      && forall inv :: inv in invoices ==> inv.id < nextInvoiceId
    }

    constructor ()
      ensures Valid()
      ensures lessons == [] && occurrences == [] && exceptions == [] && reports == [] && invoices == []
      ensures nextInvoiceId == 1
    {
      lessons, occurrences, exceptions, reports, invoices := [], [], [], [], [];
      nextInvoiceId := 1;
    }

    /**
     * `get_or_create_invoices` (Backend/main.py:352-395): the tutor's invoices for every week
     * from the week of `minDate` to the week of `maxDate`, creating the missing ones. `today`
     * stands for `datetime.now()`.
     */
    method GetOrCreateInvoices(minDate: Date, maxDate: Date, tutor: int, today: Date) returns (ids: map<Date, int>)
      requires Valid() && ValidDate(minDate) && ValidDate(maxDate) && ValidDate(today)
      modifies this
      ensures invoices == WithCreated(old(invoices), tutor, minDate, maxDate, today, old(nextInvoiceId))
      ensures nextInvoiceId == old(nextInvoiceId) + |CreatedWeeks(old(invoices), tutor, minDate, maxDate)|
      ensures lessons == old(lessons) && occurrences == old(occurrences) && exceptions == old(exceptions)
      ensures reports == old(reports)
      ensures ids == InvoiceIds(old(invoices), tutor, minDate, maxDate, today, old(nextInvoiceId))
      ensures Valid()
    {
      var lo, hi := MondayOf(minDate), MondayOf(maxDate);
      var existing := WeekIds(TutorRowsBetween(invoices, tutor, lo, hi));
      ids := existing;
      ghost var rows, firstId := invoices, nextInvoiceId;

      var toProcess := CollectMissingWeeks(lo, hi, existing);
      assert existing == Existing(rows, tutor, minDate, maxDate);
      assert toProcess == CreatedWeeks(rows, tutor, minDate, maxDate);
      if toProcess != [] {
        InsertInvoices(toProcess, tutor, MondayOf(today));
        assert invoices == WithCreated(rows, tutor, minDate, maxDate, today, firstId);
        ids := ids + WeekIds(TutorRows(invoices, tutor));
      }
      CreatedUnique(rows, tutor, minDate, maxDate, today, firstId);
      CreatedFreshIds(rows, tutor, minDate, maxDate, today, firstId);
    }

    /** The `executemany` insert: one row per week, numbered by the auto-increment counter. */
    method InsertInvoices(weeks: seq<Date>, tutor: int, currentWeek: Date)
      requires ValidDate(currentWeek) && forall d :: d in weeks ==> ValidDate(d)
      modifies this
      ensures invoices == old(invoices) + NewInvoices(weeks, tutor, currentWeek, old(nextInvoiceId))
      ensures nextInvoiceId == old(nextInvoiceId) + |weeks|
      ensures lessons == old(lessons) && occurrences == old(occurrences) && exceptions == old(exceptions)
      ensures reports == old(reports)
    {
      ghost var added := NewInvoices(weeks, tutor, currentWeek, nextInvoiceId);
      var i := 0;
      while i < |weeks|
        invariant 0 <= i <= |weeks|
        invariant invoices == old(invoices) + added[..i]
        invariant nextInvoiceId == old(nextInvoiceId) + i
        invariant lessons == old(lessons) && occurrences == old(occurrences) && exceptions == old(exceptions)
        invariant reports == old(reports)
      {
        InsertInvoice(weeks[i], tutor, currentWeek);
        assert added[..i + 1] == added[..i] + [added[i]];
        i := i + 1;
      }
      assert added[..i] == added;
    }

    /** One row of the insert: the week's invoice with the next id. */
    method InsertInvoice(week: Date, tutor: int, currentWeek: Date)
      requires ValidDate(week) && ValidDate(currentWeek)
      modifies this
      ensures invoices == old(invoices) + [Invoice(old(nextInvoiceId), week, CreationStatus(week, currentWeek), tutor)]
      ensures nextInvoiceId == old(nextInvoiceId) + 1
      ensures lessons == old(lessons) && occurrences == old(occurrences) && exceptions == old(exceptions)
      ensures reports == old(reports)
    {
      invoices := invoices + [Invoice(nextInvoiceId, week, CreationStatus(week, currentWeek), tutor)];
      nextInvoiceId := nextInvoiceId + 1;
    }

    /**
     * `get_or_create_invoices(..., single=True)` (Backend/main.py:398-399): the id of the
     * tutor's invoice for the week of `maxDate`. It is present whenever `minDate` is not after
     * `maxDate`.
     */
    method GetOrCreateInvoice(minDate: Date, maxDate: Date, tutor: int, today: Date) returns (id: Option<int>)
      requires Valid() && ValidDate(minDate) && ValidDate(maxDate) && ValidDate(today)
      modifies this
      ensures invoices == WithCreated(old(invoices), tutor, minDate, maxDate, today, old(nextInvoiceId))
      ensures nextInvoiceId == old(nextInvoiceId) + |CreatedWeeks(old(invoices), tutor, minDate, maxDate)|
      ensures lessons == old(lessons) && occurrences == old(occurrences) && exceptions == old(exceptions)
      ensures reports == old(reports)
      ensures Valid()
      ensures DayNumber(minDate) <= DayNumber(maxDate) ==> id.Some?
      ensures id.Some? ==> exists x :: x in invoices && x.tutor == tutor && x.week == MondayOf(maxDate) && x.id == id.value
    {
      var ids := GetOrCreateInvoices(minDate, maxDate, tutor, today);
      var key := MondayOf(maxDate);
      if key in ids {
        id := Some(ids[key]);
        InvoiceIdsSound(old(invoices), tutor, minDate, maxDate, today, old(nextInvoiceId), key);
      } else {
        id := None;
        if DayNumber(minDate) <= DayNumber(maxDate) {
          MondayOfMonotone(minDate, maxDate);
          InvoiceIdsCover(old(invoices), tutor, minDate, maxDate, today, old(nextInvoiceId), key);
        }
      }
    }

    /**
     * `update_invoice_status` (Backend/main.py:403-478): detach and delete the invoices that
     * hold no lesson, close the weeks that have passed and move invoices between 'incomplete'
     * and 'ready' by whether a report is outstanding. `today` stands for `NOW()`; `demo` selects
     * the SQLite week numbering of the demo database.
     */
    method UpdateInvoiceStatus(today: Date, demo: bool)
      requires Valid() && ValidDate(today)
      modifies this
      ensures exceptions == DetachAll(old(exceptions), EmptyIds(lessons, occurrences, old(exceptions), old(invoices)))
      ensures invoices == AdvanceAll(DeleteIds(old(invoices), EmptyIds(lessons, occurrences, exceptions, old(invoices))),
                                     today, demo, PendingInvoices(lessons, occurrences, exceptions, reports))
      ensures lessons == old(lessons) && occurrences == old(occurrences) && reports == old(reports)
      ensures nextInvoiceId == old(nextInvoiceId)
      ensures Valid()
      ensures forall inv :: inv in invoices ==> !IsEmpty(lessons, occurrences, exceptions, inv)
      ensures forall inv :: inv in invoices && inv.status == Ready ==> inv.id !in PendingInvoices(lessons, occurrences, exceptions, reports)
      ensures forall inv :: inv in invoices && inv.status == Incomplete ==> inv.id in PendingInvoices(lessons, occurrences, exceptions, reports)
    {
      UpdateOutcome(lessons, occurrences, exceptions, reports, invoices, today, demo);
      var empty := EmptyIds(lessons, occurrences, exceptions, invoices);
      exceptions := DetachAll(exceptions, empty);
      var kept := DeleteIds(invoices, EmptyIds(lessons, occurrences, exceptions, invoices));
      var pending := PendingInvoices(lessons, occurrences, exceptions, reports);
      AdvanceKeepsInvariants(kept, today, demo, pending, nextInvoiceId);
      invoices := AdvanceAll(kept, today, demo, pending);
    }
 
    /**
     * The time-only edit of a recurring lesson (Backend/main.py:1070-1093): every occurrence of
     * the lesson starting at or after `from` keeps its date and takes the clock times of
     * `newStart` and `newEnd`, one `UPDATE` per row.
     */
    method RetimeFrom(lesson: int, from: DateTime, newStart: DateTime, newEnd: DateTime)
      requires ValidTime(from) && forall lo :: lo in occurrences ==> ValidTime(lo.start)
      modifies this
      ensures |occurrences| == |old(occurrences)|
      ensures forall i :: 0 <= i < |occurrences| ==> occurrences[i] == RetimeOne(old(occurrences)[i], lesson, from, newStart, newEnd)
      ensures lessons == old(lessons) && exceptions == old(exceptions) && reports == old(reports)
      ensures invoices == old(invoices) && nextInvoiceId == old(nextInvoiceId)
    {
      ghost var before := occurrences;
      var i := 0;
      while i < |occurrences|
        invariant 0 <= i <= |occurrences| == |before|
        invariant forall j :: 0 <= j < i ==> occurrences[j] == RetimeOne(before[j], lesson, from, newStart, newEnd)
        invariant occurrences[i..] == before[i..]
        invariant lessons == old(lessons) && exceptions == old(exceptions) && reports == old(reports)
        invariant invoices == old(invoices) && nextInvoiceId == old(nextInvoiceId)
      {
        var lo := occurrences[i];
        assert lo == before[i] && lo in before;
        if lo.lesson == lesson && Instant(lo.start) >= Instant(from) {
          occurrences := occurrences[i := lo.(start := Combine(lo.start.date, newStart), end := Combine(lo.start.date, newEnd))];
        }
        assert occurrences[i + 1..] == before[i + 1..];
        i := i + 1;
      }
    }

    /**
     * Moving an edited occurrence to the invoice of its tutor and week (Backend/main.py:843-862):
     * that invoice is found or created, and set back from 'submitted' to 'ready'.
     */
    method MoveToInvoice(tutor: int, start: DateTime, today: Date) returns (id: int)
      requires Valid() && ValidTime(start) && ValidDate(today)
      modifies this
      ensures Valid()
      ensures exists x :: x in invoices && x.id == id && x.tutor == tutor && x.week == MondayOf(start.date) && x.status != Submitted
      ensures forall inv :: inv in invoices && inv.id == id ==> inv.status != Submitted
      ensures invoices == Reopened(WithCreated(old(invoices), tutor, start.date, start.date, today, old(nextInvoiceId)), id)
      ensures nextInvoiceId == old(nextInvoiceId) + |CreatedWeeks(old(invoices), tutor, start.date, start.date)|
      ensures lessons == old(lessons) && occurrences == old(occurrences) && exceptions == old(exceptions)
      ensures reports == old(reports)
    {
      var found := GetOrCreateInvoice(start.date, start.date, tutor, today);
      id := found.value;
      var x :| x in invoices && x.tutor == tutor && x.week == MondayOf(start.date) && x.id == id;
      ReopenInvoice(id, x);
    }

    /** `UPDATE Invoices SET status = 'ready' WHERE status = 'submitted' AND id = ...`; `x` is the invoice with that id. */
    method ReopenInvoice(id: int, ghost x: Invoice)
      requires Valid() && x in invoices && x.id == id
      modifies this
      ensures invoices == Reopened(old(invoices), id) && Valid()
      ensures exists y :: y in invoices && y.id == id && y.tutor == x.tutor && y.week == x.week && y.status != Submitted
      ensures forall inv :: inv in invoices && inv.id == id ==> inv.status != Submitted
      ensures lessons == old(lessons) && occurrences == old(occurrences) && exceptions == old(exceptions)
      ensures reports == old(reports) && nextInvoiceId == old(nextInvoiceId)
    {
      ReopenedKeeps(invoices, id, nextInvoiceId);
      ReopenedKeepsRows(invoices, id, x);
      invoices := Reopened(invoices, id);
    }

    /**
     * `add_lesson_exception` (Backend/main.py:819-885) once the body has been read: `patch` holds
     * the columns the body gives and `reassign` the outcome of the condition at line 843. When
     * the occurrence moves, `invoice` is the id of the invoice of `ReassignTarget`'s tutor and
     * week, found or created and reopened, and the exception row records it; an occurrence that
     * cannot be found is the error of the failing `fetchone()`, and nothing changes.
     */
    method AddLessonException(occurrence: int, patch: ExceptionPatch, reassign: bool, today: Date) returns (ok: bool, invoice: int)
      requires Valid() && ValidDate(today)
      requires forall lo :: lo in occurrences ==> ValidTime(lo.start)
      requires forall e :: e in exceptions ==> e.start.Some? ==> ValidTime(e.start.value)
      requires patch.start.Set? && patch.start.value.Some? ==> ValidTime(patch.start.value.value)
      modifies this
      ensures Valid()
      ensures !ok ==> invoices == old(invoices) && exceptions == old(exceptions) && nextInvoiceId == old(nextInvoiceId)
      ensures !reassign ==> ok && invoices == old(invoices) && nextInvoiceId == old(nextInvoiceId)
      ensures !reassign ==> exceptions == Upserted(old(exceptions), occurrence, patch)
      ensures ok ==> forall o :: o != occurrence ==> ExceptionOf(exceptions, o) == ExceptionOf(old(exceptions), o)
      ensures reassign ==> (ok <==> ReassignTarget(old(lessons), old(occurrences), old(exceptions), occurrence, patch).Some?)
      ensures ok && reassign ==>
                var target := ReassignTarget(old(lessons), old(occurrences), old(exceptions), occurrence, patch);
                var tutor, start := target.value.0, target.value.1;
                exceptions == Upserted(old(exceptions), occurrence, patch.(invoice := Set(Some(invoice))))
                && MovedTo(old(invoices), old(nextInvoiceId), invoices, nextInvoiceId, tutor, start, today, invoice)
      ensures ok && reassign ==>
                var e := ExceptionOf(exceptions, occurrence);
                e.Some? && e.value.invoice.Some?
                && exists x :: x in invoices && x.id == e.value.invoice.value && x.status != Submitted
      ensures lessons == old(lessons) && occurrences == old(occurrences) && reports == old(reports)
    {
      var p := patch;
      ok, invoice := true, 0;
      if reassign {
        var target := ReassignTarget(lessons, occurrences, exceptions, occurrence, patch);
        if target.None? {
          ok := false;
        } else {
          var (tutor, start) := target.value;
          invoice := MoveToInvoice(tutor, start, today);
          p := patch.(invoice := Set(Some(invoice)));
        }
      }
      if ok {
        exceptions := Upserted(exceptions, occurrence, p);
      }
    }
  }
}
