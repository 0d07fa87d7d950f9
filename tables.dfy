/**
 * The database rows the backend reads and writes, as in-memory records. A `LEFT JOIN
 * LessonExceptions` finds at most one exception per occurrence: the exceptions table is keyed
 * by `lesson_occurrence_id` (Backend/main.py:873-884 upsert on that key), so the model looks the
 * exception of an occurrence up rather than joining. `COALESCE(exception value, base value)` is
 * the occurrence's effective value.
 */
module Tables {
  import opened Wrappers
  import opened CivilTime

  datatype Lesson = Lesson(id: int, tutor: int, student: int, location: int, subject: int, recurrenceRule: string)

  datatype LessonOccurrence = LessonOccurrence(id: int, lesson: int, start: DateTime, end: DateTime, invoice: int)

  /** A row of `LessonExceptions`; `None` is SQL `NULL`. */
  datatype LessonException = LessonException(
    occurrence: int, kind: Option<string>, invoice: Option<int>, tutor: Option<int>, student: Option<int>,
    start: Option<DateTime>, end: Option<DateTime>)

  datatype Report = Report(id: int, occurrence: int, status: string)

  datatype InvoiceStatus = Upcoming | Incomplete | Ready | Submitted | Paid

  datatype Invoice = Invoice(id: int, week: Date, status: InvoiceStatus, tutor: int)

  /** `JOIN Lessons l ON lo.lesson_id = l.id`: the lesson with that primary key, if any. */
  function LessonOf(lessons: seq<Lesson>, id: int): (r: Option<Lesson>)
    ensures r.Some? ==> r.value in lessons && r.value.id == id
    ensures r.None? <==> forall l :: l in lessons ==> l.id != id
  {
    if |lessons| == 0 then None
    else if lessons[0].id == id then Some(lessons[0])
    else LessonOf(lessons[1..], id)
  }

  /** `SELECT ... FROM LessonOccurrences WHERE id = ...`: the occurrence with that primary key, if any. */
  function OccurrenceOf(occurrences: seq<LessonOccurrence>, id: int): (r: Option<LessonOccurrence>)
    ensures r.Some? ==> r.value in occurrences && r.value.id == id
    ensures r.None? <==> forall lo :: lo in occurrences ==> lo.id != id
  {
    if |occurrences| == 0 then None
    else if occurrences[0].id == id then Some(occurrences[0])
    else OccurrenceOf(occurrences[1..], id)
  }

  /** `LEFT JOIN LessonExceptions le ON lo.id = le.lesson_occurrence_id`: `None` when there is no exception. */
  function ExceptionOf(exceptions: seq<LessonException>, occurrence: int): (r: Option<LessonException>)
    ensures r.Some? ==> r.value in exceptions && r.value.occurrence == occurrence
    ensures r.None? <==> forall e :: e in exceptions ==> e.occurrence != occurrence
  {
    if |exceptions| == 0 then None
    else if exceptions[0].occurrence == occurrence then Some(exceptions[0])
    else ExceptionOf(exceptions[1..], occurrence)
  }

  /** `le.exception_type IS NULL OR le.exception_type != 'CANCEL'`, including the row with no exception. */
  predicate NotCancelled(le: Option<LessonException>) {
    le.None? || le.value.kind.None? || le.value.kind.value != "CANCEL"
  }

  /** `COALESCE(le.x, base)` for an optional exception row. */
  function Effective<T>(le: Option<LessonException>, pick: LessonException -> Option<T>, base: T): T {
    if le.Some? && pick(le.value).Some? then pick(le.value).value else base
  }

  function EffectiveInvoice(lo: LessonOccurrence, le: Option<LessonException>): int {
    Effective(le, (e: LessonException) => e.invoice, lo.invoice)
  }

  function EffectiveTutor(l: Lesson, le: Option<LessonException>): int {
    Effective(le, (e: LessonException) => e.tutor, l.tutor)
  }

  function EffectiveStudent(l: Lesson, le: Option<LessonException>): int {
    Effective(le, (e: LessonException) => e.student, l.student)
  }

  function EffectiveStart(lo: LessonOccurrence, le: Option<LessonException>): DateTime {
    Effective(le, (e: LessonException) => e.start, lo.start)
  }

  function EffectiveEnd(lo: LessonOccurrence, le: Option<LessonException>): DateTime {
    Effective(le, (e: LessonException) => e.end, lo.end)
  }

  // ---- Table invariants ----

  /** `Invoices.id` is the primary key. */
  ghost predicate UniqueIds(invoices: seq<Invoice>) {
    forall a, b :: a in invoices && b in invoices && a.id == b.id ==> a == b
  }

  /** Every invoice week is a real date. */
  ghost predicate WeeksValid(invoices: seq<Invoice>) {
    forall inv :: inv in invoices ==> ValidDate(inv.week)
  }

  /** No tutor has two invoices for the same week. */
  ghost predicate UniqueWeeks(invoices: seq<Invoice>) {
    forall a, b :: a in invoices && b in invoices && a.tutor == b.tutor && a.week == b.week ==> a == b
  }
}
