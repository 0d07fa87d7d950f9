/**
 * Small formatters of the backend: zero-padded titles (Backend/main.py:175, 589-592), names cut
 * to 20 characters for the timetable (Backend/main.py:2750-2752) and the timetable's range
 * widened to whole weeks (Backend/main.py:2681-2682).
 */
module Formatters {
  import opened CivilTime
  import opened DateText

  // ---- Titles ----

  /** `str(id).zfill(5)` for a non-negative id. */
  function IdText(id: nat): string {
    Padded(id, 5)
  }

  lemma {:induction false} Pow10Monotone(a: nat, b: nat)
    requires a <= b
    ensures Pow10(a) <= Pow10(b)
    decreases b
  {
    if a < b {
      Pow10Monotone(a, b - 1);
    }
  }

  /** The padded id is all digits, at least five of them, and reads back as the id. */
  lemma IdTextValue(id: nat)
    ensures AllDigits(IdText(id)) && DigitsValue(IdText(id)) == id
    ensures |IdText(id)| >= 5 && (|IdText(id)| == 5 <==> id < 100000)
  {
    var s := NatText(id);
    if |s| < 5 {
      Pow10Monotone(|s|, 5);
      ZeroPadIsFixed(id, 5);
      FixedValue(id, 5);
    } else {
      DigitsValueBound(s);
      if |s| > 5 {
        Pow10Monotone(5, |s| - 1);
        NatTextLeading(id);
      }
    }
  }

  /** `str(n)` has no leading zero: a number written with `k + 1` digits, `k >= 1`, is at least `10^k`. */
  lemma {:induction false} NatTextLeading(n: nat)
    ensures |NatText(n)| > 1 ==> n >= Pow10(|NatText(n)| - 1)
    decreases n
  {
    if n >= 10 {
      NatTextLeading(n / 10);
      assert |NatText(n)| == |NatText(n / 10)| + 1;
    }
  }

  /** `f"INV-{str(id).zfill(5)}"`. */
  function InvoiceTitle(id: nat): string {
    "INV-" + IdText(id)
  }

  /** `f"Report No. {str(id).zfill(5)}"`. */
  function ReportTitle(id: nat): string {
    "Report No. " + IdText(id)
  }

  /** Reading the digits after "INV-" gives the id back, so different invoices get different titles. */
  lemma InvoiceTitleRoundTrip(id: nat)
    ensures InvoiceTitle(id)[..4] == "INV-"
    ensures var digits := InvoiceTitle(id)[4..]; AllDigits(digits) && DigitsValue(digits) == id
  {
    IdTextValue(id);
    assert InvoiceTitle(id)[4..] == IdText(id);
  }

  lemma InvoiceTitleInjective(a: nat, b: nat)
    requires InvoiceTitle(a) == InvoiceTitle(b)
    ensures a == b
  {
    InvoiceTitleRoundTrip(a);
    InvoiceTitleRoundTrip(b);
  }

  /** Reading the digits after "Report No. " gives the id back. */
  lemma ReportTitleRoundTrip(id: nat)
    ensures ReportTitle(id)[..11] == "Report No. "
    ensures var digits := ReportTitle(id)[11..]; AllDigits(digits) && DigitsValue(digits) == id
  {
    IdTextValue(id);
    assert ReportTitle(id)[11..] == IdText(id);
  }

  // ---- Timetable ----

  /** `name[:20] + ("..." if len(name) > 20 else '')`. */
  function Shorten(name: string): (r: string)
    ensures |name| <= 20 ==> r == name
    ensures |name| > 20 ==> |r| == 23 && r[..20] == name[..20] && r[20..] == "..."
  {
    if |name| <= 20 then name else name[..20] + "..."
  }

  /**
   * The timetable's range: the start moved back to its Monday and the end forward to its Sunday,
   * keeping their times of day.
   */
  function TimetableRange(start: DateTime, end: DateTime): (r: (DateTime, DateTime))
    requires ValidTime(start) && ValidTime(end)
    ensures ValidTime(r.0) && ValidTime(r.1)
    ensures Weekday(r.0.date) == 0 && TimeOfDay(r.0) == TimeOfDay(start)
    ensures DayNumber(start.date) - 6 <= DayNumber(r.0.date) <= DayNumber(start.date)
    ensures Weekday(r.1.date) == 6 && TimeOfDay(r.1) == TimeOfDay(end)
    ensures DayNumber(end.date) <= DayNumber(r.1.date) <= DayNumber(end.date) + 6
  {
    (start.(date := MondayOf(start.date)), end.(date := SundayOf(end.date)))
  }
}
