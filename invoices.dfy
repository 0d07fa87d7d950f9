/**
 * Weekly invoices (Backend/main.py:352-478). Every tutor has at most one invoice per week, keyed
 * by the week's Monday. `get_or_create_invoices` fills in the missing weeks of a date range, and
 * `update_invoice_status` removes invoices without lessons and moves the others through the
 * status machine upcoming -> incomplete <-> ready. `submitted` and `paid` are set by the
 * client only.
 */
module Invoices {
  import opened Wrappers
  import opened CivilTime
  import opened Tables

  // ---- Status texts ----

  /** The text stored in the `status` column. */
  function StatusName(s: InvoiceStatus): string {
    match s
    case Upcoming => "upcoming"
    case Incomplete => "incomplete"
    case Ready => "ready"
    case Submitted => "submitted"
    case Paid => "paid"
  }

  /** The status a `status` text names, if any: the keys of the text map. */
  function ParseStatus(text: string): (r: Option<InvoiceStatus>)
    ensures r.Some? ==> StatusName(r.value) == text
  {
    if text == "upcoming" then Some(Upcoming)
    else if text == "incomplete" then Some(Incomplete)
    else if text == "ready" then Some(Ready)
    else if text == "submitted" then Some(Submitted)
    else if text == "paid" then Some(Paid)
    else None
  }

  /** Every status name is read back as its status. */
  lemma ParseStatusName(s: InvoiceStatus)
    ensures ParseStatus(StatusName(s)) == Some(s)
  {
    match s
    case Upcoming =>
    case Incomplete => assert StatusName(s)[0] == 'i';
    case Ready => assert StatusName(s)[0] == 'r';
    case Submitted => assert StatusName(s)[0] == 's';
    case Paid => assert StatusName(s)[0] == 'p';
  }

  /** The descriptions of `get_invoice_status_text`'s map. */
  function Description(s: InvoiceStatus): (r: string)
    ensures r != "Status unknown"
  {
    match s
    case Incomplete => "Missing lesson report(s)"
    case Ready => "Ready to submit"
    case Upcoming => "Invoice week incomplete"
    case Submitted => "Submitted and pending payment"
    case Paid => "Paid"
  }

  /** `get_invoice_status_text`: the description of a known status, "Status unknown" for any other text. */
  function InvoiceStatusText(status: string): (r: string)
    ensures r == "Status unknown" <==> ParseStatus(status).None?
    ensures ParseStatus(status).Some? ==> r == Description(ParseStatus(status).value)
  {
    match ParseStatus(status)
    case Some(s) => Description(s)
    case None => "Status unknown"
  }

  // ---- get_or_create_invoices ----

  /** `{invoice['week']: invoice['id'] for invoice in rows}`: a later row overrides an earlier one. */
  function WeekIds(rows: seq<Invoice>): (m: map<Date, int>)
    ensures m.Keys == set r | r in rows :: r.week
  {
    if |rows| == 0 then map[]
    else WeekIds(rows[..|rows| - 1])[rows[|rows| - 1].week := rows[|rows| - 1].id]
  }

  /** When every row of a week carries the same id, the map sends that week to that id. */
  lemma {:induction false} WeekIdsOf(rows: seq<Invoice>, x: Invoice)
    requires x in rows
    requires forall y :: y in rows && y.week == x.week ==> y.id == x.id
    ensures x.week in WeekIds(rows) && WeekIds(rows)[x.week] == x.id
  {
    var init := rows[..|rows| - 1];
    if rows[|rows| - 1].week != x.week {
      assert x in init by {
        var k :| 0 <= k < |rows| && rows[k] == x;
        assert init[k] == x;
      }
      WeekIdsOf(init, x);
    }
  }

  /** `SELECT id, week FROM Invoices WHERE week BETWEEN lo AND hi AND tutor_id = tutor`. */
  function TutorRowsBetween(rows: seq<Invoice>, tutor: int, lo: Date, hi: Date): (r: seq<Invoice>)
    requires WeeksValid(rows) && ValidDate(lo) && ValidDate(hi)
    ensures forall x :: x in r <==> x in rows && x.tutor == tutor && DayNumber(lo) <= DayNumber(x.week) <= DayNumber(hi)
  {
    if |rows| == 0 then []
    else
      var rest := TutorRowsBetween(rows[1..], tutor, lo, hi);
      var x := rows[0];
      if x.tutor == tutor && DayNumber(lo) <= DayNumber(x.week) <= DayNumber(hi) then [x] + rest else rest
  }

  /** `SELECT id, week FROM Invoices WHERE tutor_id = tutor`. */
  function TutorRows(rows: seq<Invoice>, tutor: int): (r: seq<Invoice>)
    ensures forall x :: x in r <==> x in rows && x.tutor == tutor
  {
    if |rows| == 0 then []
    else
      var rest := TutorRows(rows[1..], tutor);
      if rows[0].tutor == tutor then [rows[0]] + rest else rest
  }

  /** `week + timedelta(weeks=1)`. */
  function WeekLater(d: Date): (r: Date)
    requires ValidDate(d)
    ensures ValidDate(r) && DayNumber(r) == DayNumber(d) + 7 && Weekday(r) == Weekday(d)
  {
    var r := AddDays(d, 7);
    WeekdayPeriodic(d, r);
    r
  }

  /** The weeks the `while week <= max_week_start` loop collects from `week` on: the weeks without an invoice. */
  function MissingWeeks(week: Date, last: Date, existing: map<Date, int>): (r: seq<Date>)
    requires ValidDate(week) && ValidDate(last)
    ensures forall d :: d in r ==> ValidDate(d) && d !in existing && DayNumber(week) <= DayNumber(d) <= DayNumber(last)
    decreases DayNumber(last) - DayNumber(week)
  {
    if DayNumber(week) > DayNumber(last) then []
    else
      var rest := MissingWeeks(WeekLater(week), last, existing);
      if week !in existing then [week] + rest else rest
  }

  /** One turn of the loop: the current week, unless it has an invoice, then the weeks after it. */
  lemma MissingWeeksStep(week: Date, last: Date, existing: map<Date, int>)
    requires ValidDate(week) && ValidDate(last) && DayNumber(week) <= DayNumber(last)
    ensures MissingWeeks(week, last, existing)
            == (if week in existing then [] else [week]) + MissingWeeks(WeekLater(week), last, existing)
  {
  }

  /** Moving a piece from the front of the remainder to the end of the accumulator keeps the total. */
  lemma AppendStep<T>(acc: seq<T>, piece: seq<T>, rest: seq<T>, total: seq<T>)
    requires acc + (piece + rest) == total
    ensures (acc + piece) + rest == total
  {
    assert (acc + piece) + rest == acc + (piece + rest);
  }

  /** What the loop ends with when it has collected `acc` and is at `week`. */
  function CollectFrom(acc: seq<Date>, week: Date, last: Date, existing: map<Date, int>): seq<Date>
    requires ValidDate(week) && ValidDate(last)
    decreases DayNumber(last) - DayNumber(week)
  {
    if DayNumber(week) > DayNumber(last) then acc
    else CollectFrom(acc + (if week in existing then [] else [week]), WeekLater(week), last, existing)
  }

  /** Finishing the loop appends the missing weeks from `week` on to what it has collected. */
  lemma {:induction false} CollectFromMissing(acc: seq<Date>, week: Date, last: Date, existing: map<Date, int>)
    requires ValidDate(week) && ValidDate(last)
    ensures CollectFrom(acc, week, last, existing) == acc + MissingWeeks(week, last, existing)
    decreases DayNumber(last) - DayNumber(week)
  {
    if DayNumber(week) <= DayNumber(last) {
      var piece := if week in existing then [] else [week];
      var next := WeekLater(week);
      CollectFromMissing(acc + piece, next, last, existing);
      MissingWeeksStep(week, last, existing);
      AppendStep(acc, piece, MissingWeeks(next, last, existing), acc + MissingWeeks(week, last, existing));
    }
  }

  /** The `while week <= max_week_start` loop itself, collecting into `weeks_to_process`. */
  method CollectMissingWeeks(first: Date, last: Date, existing: map<Date, int>) returns (toProcess: seq<Date>)
    requires ValidDate(first) && ValidDate(last)
    ensures toProcess == MissingWeeks(first, last, existing)
  {
    var week := first;
    toProcess := [];
    while DayNumber(week) <= DayNumber(last)
      invariant ValidDate(week)
      invariant CollectFrom(toProcess, week, last, existing) == CollectFrom([], first, last, existing)
      decreases DayNumber(last) - DayNumber(week)
    {
      toProcess := toProcess + (if week in existing then [] else [week]);
      week := WeekLater(week);
    }
    CollectFromMissing([], first, last, existing);
    assert [] + MissingWeeks(first, last, existing) == MissingWeeks(first, last, existing);
  }

  /** Stepping by whole weeks keeps the weekday: from a Monday, the loop collects Mondays only. */
  lemma {:induction false} MissingWeeksWeekday(week: Date, last: Date, existing: map<Date, int>, x: Date)
    requires ValidDate(week) && ValidDate(last) && x in MissingWeeks(week, last, existing)
    ensures ValidDate(x) && Weekday(x) == Weekday(week)
    decreases DayNumber(last) - DayNumber(week)
  {
    if x != week {
      MissingWeeksStep(week, last, existing);
      MissingWeeksWeekday(WeekLater(week), last, existing, x);
    }
  }

  /** No two positions of `s` hold the same value. */
  ghost predicate Distinct<T>(s: seq<T>) {
    forall i, j :: 0 <= i < j < |s| ==> s[i] != s[j]
  }

  lemma DistinctCons<T>(x: T, s: seq<T>)
    requires Distinct(s) && x !in s
    ensures Distinct([x] + s)
  {
    var r := [x] + s;
    forall i, j | 0 <= i < j < |r| ensures r[i] != r[j] {
      assert r[j] == s[j - 1];
      if i > 0 {
        assert r[i] == s[i - 1];
      }
    }
  }

  /** The loop visits every week once, so no week is collected twice. */
  lemma {:induction false} MissingWeeksDistinct(week: Date, last: Date, existing: map<Date, int>)
    requires ValidDate(week) && ValidDate(last)
    ensures Distinct(MissingWeeks(week, last, existing))
    decreases DayNumber(last) - DayNumber(week)
  {
    if DayNumber(week) <= DayNumber(last) {
      var rest := MissingWeeks(WeekLater(week), last, existing);
      MissingWeeksStep(week, last, existing);
      MissingWeeksDistinct(WeekLater(week), last, existing);
      if week !in existing {
        DistinctCons(week, rest);
      }
    }
  }

  /** A Monday in the range without an invoice is among the weeks collected. */
  lemma {:induction false} MissingWeeksComplete(week: Date, last: Date, existing: map<Date, int>, d: Date)
    requires ValidDate(week) && ValidDate(last) && ValidDate(d) && Weekday(week) == 0 && Weekday(d) == 0
    requires DayNumber(week) <= DayNumber(d) <= DayNumber(last) && d !in existing
    ensures d in MissingWeeks(week, last, existing)
    decreases DayNumber(last) - DayNumber(week)
  {
    MissingWeeksStep(week, last, existing);
    if DayNumber(d) < DayNumber(week) + 7 {
      MondaysWithinWeek(week, d);
    } else {
      MissingWeeksComplete(WeekLater(week), last, existing, d);
    }
  }

  /** The status of a new invoice: 'upcoming' from the current week on, 'incomplete' before it. */
  function CreationStatus(week: Date, currentWeek: Date): InvoiceStatus
    requires ValidDate(week) && ValidDate(currentWeek)
  {
    if DayNumber(week) >= DayNumber(currentWeek) then Upcoming else Incomplete
  }

  /** The rows `executemany` inserts, with ids from the auto-increment counter. */
  function NewInvoices(weeks: seq<Date>, tutor: int, currentWeek: Date, nextId: int): (r: seq<Invoice>)
    requires forall d :: d in weeks ==> ValidDate(d)
    requires ValidDate(currentWeek)
    ensures |r| == |weeks| && forall i :: 0 <= i < |weeks| ==>
              r[i] == Invoice(nextId + i, weeks[i], CreationStatus(weeks[i], currentWeek), tutor)
  {
    if |weeks| == 0 then []
    else
      [Invoice(nextId, weeks[0], CreationStatus(weeks[0], currentWeek), tutor)]
      + NewInvoices(weeks[1..], tutor, currentWeek, nextId + 1)
  }

  /** The invoices of the tutor already stored for the weeks of `minDate` to `maxDate`. */
  function Existing(rows: seq<Invoice>, tutor: int, minDate: Date, maxDate: Date): map<Date, int>
    requires WeeksValid(rows) && ValidDate(minDate) && ValidDate(maxDate)
  {
    WeekIds(TutorRowsBetween(rows, tutor, MondayOf(minDate), MondayOf(maxDate)))
  }

  /** The weeks `get_or_create_invoices` inserts. */
  function CreatedWeeks(rows: seq<Invoice>, tutor: int, minDate: Date, maxDate: Date): seq<Date>
    requires WeeksValid(rows) && ValidDate(minDate) && ValidDate(maxDate)
  {
    MissingWeeks(MondayOf(minDate), MondayOf(maxDate), Existing(rows, tutor, minDate, maxDate))
  }

  /** The table after `get_or_create_invoices`. */
  function WithCreated(rows: seq<Invoice>, tutor: int, minDate: Date, maxDate: Date, today: Date, nextId: int): seq<Invoice>
    requires WeeksValid(rows) && ValidDate(minDate) && ValidDate(maxDate) && ValidDate(today)
  {
    rows + NewInvoices(CreatedWeeks(rows, tutor, minDate, maxDate), tutor, MondayOf(today), nextId)
  }

  /** The returned `invoice_dict`: re-read from all the tutor's invoices when any was created. */
  function InvoiceIds(rows: seq<Invoice>, tutor: int, minDate: Date, maxDate: Date, today: Date, nextId: int): map<Date, int>
    requires WeeksValid(rows) && ValidDate(minDate) && ValidDate(maxDate) && ValidDate(today)
  {
    var existing := Existing(rows, tutor, minDate, maxDate);
    if CreatedWeeks(rows, tutor, minDate, maxDate) == [] then existing
    else existing + WeekIds(TutorRows(WithCreated(rows, tutor, minDate, maxDate, today, nextId), tutor))
  }

  /** A created week is among the keys of the re-read map. */
  lemma CreatedWeekListed(rows: seq<Invoice>, tutor: int, minDate: Date, maxDate: Date, today: Date, nextId: int, d: Date)
    requires WeeksValid(rows) && ValidDate(minDate) && ValidDate(maxDate) && ValidDate(today)
    requires d in CreatedWeeks(rows, tutor, minDate, maxDate)
    ensures d in WeekIds(TutorRows(WithCreated(rows, tutor, minDate, maxDate, today, nextId), tutor))
  {
    var weeks := CreatedWeeks(rows, tutor, minDate, maxDate);
    var k :| 0 <= k < |weeks| && weeks[k] == d;
    var all := WithCreated(rows, tutor, minDate, maxDate, today, nextId);
    var added := NewInvoices(weeks, tutor, MondayOf(today), nextId);
    assert all[|rows| + k] == added[k];
    assert added[k] in TutorRows(all, tutor);
  }

  /** After the call every Monday from the week of `minDate` to the week of `maxDate` has an invoice id. */
  lemma InvoiceIdsCover(rows: seq<Invoice>, tutor: int, minDate: Date, maxDate: Date, today: Date, nextId: int, d: Date)
    requires WeeksValid(rows) && ValidDate(minDate) && ValidDate(maxDate) && ValidDate(today)
    requires ValidDate(d) && Weekday(d) == 0
    requires DayNumber(MondayOf(minDate)) <= DayNumber(d) <= DayNumber(MondayOf(maxDate))
    ensures d in InvoiceIds(rows, tutor, minDate, maxDate, today, nextId)
  {
    var existing := Existing(rows, tutor, minDate, maxDate);
    if d !in existing {
      MissingWeeksComplete(MondayOf(minDate), MondayOf(maxDate), existing, d);
      CreatedWeekListed(rows, tutor, minDate, maxDate, today, nextId, d);
    }
  }

  /** A row `get_or_create_invoices` added is the invoice of the `k`-th collected week, `k` being its id's offset. */
  lemma CreatedRow(rows: seq<Invoice>, tutor: int, minDate: Date, maxDate: Date, today: Date, nextId: int, x: Invoice)
    requires WeeksValid(rows) && ValidDate(minDate) && ValidDate(maxDate) && ValidDate(today)
    requires x in WithCreated(rows, tutor, minDate, maxDate, today, nextId) && x !in rows
    ensures var weeks := CreatedWeeks(rows, tutor, minDate, maxDate);
            && 0 <= x.id - nextId < |weeks| && x.week == weeks[x.id - nextId] && x.tutor == tutor
            && ValidDate(x.week) && x.week !in Existing(rows, tutor, minDate, maxDate)
            && DayNumber(MondayOf(minDate)) <= DayNumber(x.week) <= DayNumber(MondayOf(maxDate))
            && x.status == CreationStatus(x.week, MondayOf(today))
  {
    var weeks := CreatedWeeks(rows, tutor, minDate, maxDate);
    var added := NewInvoices(weeks, tutor, MondayOf(today), nextId);
    var k :| 0 <= k < |added| && added[k] == x;
    assert x == Invoice(nextId + k, weeks[k], CreationStatus(weeks[k], MondayOf(today)), tutor);
    assert x.id - nextId == k && weeks[k] in weeks;
  }

  /** A created invoice is for a Monday, and is 'upcoming' exactly when its week is not before the current week. */
  lemma CreatedStatus(rows: seq<Invoice>, tutor: int, minDate: Date, maxDate: Date, today: Date, nextId: int, x: Invoice)
    requires WeeksValid(rows) && ValidDate(minDate) && ValidDate(maxDate) && ValidDate(today)
    requires x in WithCreated(rows, tutor, minDate, maxDate, today, nextId) && x !in rows
    ensures x.tutor == tutor && ValidDate(x.week) && Weekday(x.week) == 0
    ensures x.status == Upcoming <==> DayNumber(x.week) >= DayNumber(MondayOf(today))
    ensures x.status == Incomplete <==> DayNumber(x.week) < DayNumber(MondayOf(today))
  {
    CreatedRow(rows, tutor, minDate, maxDate, today, nextId, x);
    MissingWeeksWeekday(MondayOf(minDate), MondayOf(maxDate), Existing(rows, tutor, minDate, maxDate), x.week);
  }

  /** Every stored invoice of the tutor in the range has its week among the keys of `Existing`. */
  lemma ExistingWeeks(rows: seq<Invoice>, tutor: int, minDate: Date, maxDate: Date, x: Invoice)
    requires WeeksValid(rows) && ValidDate(minDate) && ValidDate(maxDate)
    requires x in rows && x.tutor == tutor
    requires DayNumber(MondayOf(minDate)) <= DayNumber(x.week) <= DayNumber(MondayOf(maxDate))
    ensures x.week in Existing(rows, tutor, minDate, maxDate)
  {
    assert x in TutorRowsBetween(rows, tutor, MondayOf(minDate), MondayOf(maxDate));
  }

  /** Creating only missing weeks keeps one invoice per tutor and week. */
  lemma CreatedUnique(rows: seq<Invoice>, tutor: int, minDate: Date, maxDate: Date, today: Date, nextId: int)
    requires WeeksValid(rows) && ValidDate(minDate) && ValidDate(maxDate) && ValidDate(today)
    requires UniqueWeeks(rows)
    ensures UniqueWeeks(WithCreated(rows, tutor, minDate, maxDate, today, nextId))
    ensures WeeksValid(WithCreated(rows, tutor, minDate, maxDate, today, nextId))
  {
    var all := WithCreated(rows, tutor, minDate, maxDate, today, nextId);
    MissingWeeksDistinct(MondayOf(minDate), MondayOf(maxDate), Existing(rows, tutor, minDate, maxDate));
    forall a | a in all && a !in rows
      ensures var weeks := CreatedWeeks(rows, tutor, minDate, maxDate);
              && 0 <= a.id - nextId < |weeks| && a.week == weeks[a.id - nextId] && a.tutor == tutor
              && ValidDate(a.week) && a.week !in Existing(rows, tutor, minDate, maxDate)
              && DayNumber(MondayOf(minDate)) <= DayNumber(a.week) <= DayNumber(MondayOf(maxDate))
              && a.status == CreationStatus(a.week, MondayOf(today))
    {
      CreatedRow(rows, tutor, minDate, maxDate, today, nextId, a);
    }
    forall b | b in rows && b.tutor == tutor && DayNumber(MondayOf(minDate)) <= DayNumber(b.week) <= DayNumber(MondayOf(maxDate))
      ensures b.week in Existing(rows, tutor, minDate, maxDate)
    {
      ExistingWeeks(rows, tutor, minDate, maxDate, b);
    }
  }

  /** With one invoice per tutor and week, an invoice already stored keeps its id in the returned map. */
  lemma ExistingKeepIds(rows: seq<Invoice>, tutor: int, minDate: Date, maxDate: Date, today: Date, nextId: int, x: Invoice)
    requires WeeksValid(rows) && ValidDate(minDate) && ValidDate(maxDate) && ValidDate(today) && UniqueWeeks(rows)
    requires x in rows && x.tutor == tutor
    requires x.week in InvoiceIds(rows, tutor, minDate, maxDate, today, nextId)
    ensures InvoiceIds(rows, tutor, minDate, maxDate, today, nextId)[x.week] == x.id
  {
    var between := TutorRowsBetween(rows, tutor, MondayOf(minDate), MondayOf(maxDate));
    if x in between {
      WeekIdsOf(between, x);
    }
    if CreatedWeeks(rows, tutor, minDate, maxDate) != [] {
      var all := WithCreated(rows, tutor, minDate, maxDate, today, nextId);
      CreatedUnique(rows, tutor, minDate, maxDate, today, nextId);
      WeekIdsOf(TutorRows(all, tutor), x);
    }
  }

  /** The auto-increment ids of the new rows are fresh: ids stay unique and below the advanced counter. */
  lemma CreatedFreshIds(rows: seq<Invoice>, tutor: int, minDate: Date, maxDate: Date, today: Date, nextId: int)
    requires WeeksValid(rows) && ValidDate(minDate) && ValidDate(maxDate) && ValidDate(today)
    requires UniqueIds(rows) && forall inv :: inv in rows ==> inv.id < nextId
    ensures var all := WithCreated(rows, tutor, minDate, maxDate, today, nextId);
            UniqueIds(all) && forall inv :: inv in all ==> inv.id < nextId + |CreatedWeeks(rows, tutor, minDate, maxDate)|
  {
    var weeks := CreatedWeeks(rows, tutor, minDate, maxDate);
    forall d | d in weeks ensures ValidDate(d) {
      var k :| 0 <= k < |weeks| && weeks[k] == d;
      CreatedRow(rows, tutor, minDate, maxDate, today, nextId,
                 NewInvoices(weeks, tutor, MondayOf(today), nextId)[k]);
    }
    AppendedFresh(rows, weeks, tutor, MondayOf(today), nextId);
  }

  /** Rows numbered on from an id above every existing one keep the ids unique. */
  lemma AppendedFresh(rows: seq<Invoice>, weeks: seq<Date>, tutor: int, currentWeek: Date, nextId: int)
    requires forall d :: d in weeks ==> ValidDate(d)
    requires ValidDate(currentWeek)
    requires UniqueIds(rows) && forall inv :: inv in rows ==> inv.id < nextId
    ensures var all := rows + NewInvoices(weeks, tutor, currentWeek, nextId);
            UniqueIds(all) && forall inv :: inv in all ==> inv.id < nextId + |weeks|
  {
    var added := NewInvoices(weeks, tutor, currentWeek, nextId);
    var all := rows + added;
    forall a | a in added ensures nextId <= a.id < nextId + |weeks| {
      var i :| 0 <= i < |added| && added[i] == a;
    }
    forall a, b | a in added && b in added && a.id == b.id ensures a == b {
      var i :| 0 <= i < |added| && added[i] == a;
      var j :| 0 <= j < |added| && added[j] == b;
    }
    UniqueAppend(rows, added, nextId);
  }

  /** Two id-unique tables whose ids lie on either side of `nextId` stay id-unique together. */
  lemma UniqueAppend(rows: seq<Invoice>, added: seq<Invoice>, nextId: int)
    requires UniqueIds(rows) && forall inv :: inv in rows ==> inv.id < nextId
    requires UniqueIds(added) && forall inv :: inv in added ==> nextId <= inv.id
    ensures UniqueIds(rows + added)
  {
    forall a, b | a in rows + added && b in rows + added && a.id == b.id ensures a == b {
      if a in rows {
        assert b in rows;
      } else {
        assert b in added;
      }
    }
  }

  /** Every entry of a week-to-id map comes from a row of that week. */
  lemma {:induction false} WeekIdsSource(rows: seq<Invoice>, d: Date)
    requires d in WeekIds(rows)
    ensures exists x :: x in rows && x.week == d && x.id == WeekIds(rows)[d]
  {
    var last := rows[|rows| - 1];
    var init := rows[..|rows| - 1];
    if last.week != d {
      WeekIdsSource(init, d);
      var x :| x in init && x.week == d && x.id == WeekIds(init)[d];
      assert x in rows;
    }
  }

  /** Every week in the returned map names an invoice the tutor has for that week once the call is done. */
  lemma InvoiceIdsSound(rows: seq<Invoice>, tutor: int, minDate: Date, maxDate: Date, today: Date, nextId: int, d: Date)
    requires WeeksValid(rows) && ValidDate(minDate) && ValidDate(maxDate) && ValidDate(today)
    requires d in InvoiceIds(rows, tutor, minDate, maxDate, today, nextId)
    ensures exists x :: x in WithCreated(rows, tutor, minDate, maxDate, today, nextId) && x.tutor == tutor && x.week == d
                        && x.id == InvoiceIds(rows, tutor, minDate, maxDate, today, nextId)[d]
  {
    var all := WithCreated(rows, tutor, minDate, maxDate, today, nextId);
    var between := TutorRowsBetween(rows, tutor, MondayOf(minDate), MondayOf(maxDate));
    var refetched := WeekIds(TutorRows(all, tutor));
    if CreatedWeeks(rows, tutor, minDate, maxDate) != [] && d in refetched {
      WeekIdsSource(TutorRows(all, tutor), d);
    } else {
      WeekIdsSource(between, d);
      var x :| x in between && x.week == d && x.id == WeekIds(between)[d];
      assert x in all;
    }
  }
}
